/** Closures of all modules, built bottom-up, each under the exclusion rules of its own module.

    `rules(v)` is the predicate "excluded by the rules of module v". */
module ClosureCollector {
  import opened ModuleGraph
  import opened PeersClosures
  import opened PeersClosureTheory

  type Rules = NodeId -> NodeId -> bool

  // ---------------------------------------------------------------- what the flags mean

  /** Reference meaning of the flag of `u` after the first `n` direct peers of `v`: `u` is not
      one of them, and each of them that leads to `u` either has it marked already or has all
      its paths to `u` blocked by the rules of `v`. */
  ghost predicate MarkedVia(g: Dag, rules: Rules, v: NodeId, n: nat, u: NodeId)
    requires n <= g.Degree(v)
    decreases g.rank(v)
  {
    forall i :: 0 <= i < n ==>
      var d := g.Peers(v)[i];
      && d != u
      && (Reaches(g, d, u) ==> MarkedVia(g, rules, d, g.Degree(d), u) || AllBlocked(g, rules(v), d, u))
  }

  ghost predicate Marked(g: Dag, rules: Rules, v: NodeId, u: NodeId) {
    MarkedVia(g, rules, v, g.Degree(v), u)
  }

  ghost predicate FlagsExact(g: Dag, rules: Rules, v: NodeId, n: nat, c: Closure)
    requires n <= g.Degree(v)
  {
    forall u :: u in c.stats ==> FlagExact(g, rules, v, n, c, u)
  }

  ghost predicate FlagExact(g: Dag, rules: Rules, v: NodeId, n: nat, c: Closure, u: NodeId)
    requires n <= g.Degree(v) && u in c.stats
  {
    c.stats[u].excluded <==> MarkedVia(g, rules, v, n, u)
  }

  ghost predicate PeersFirst(g: Dag, finished: set<NodeId>) {
    forall v, i {:trigger g.Peers(v)[i]} :: v in finished && 0 <= i < g.Degree(v) ==> g.Peers(v)[i] in finished
  }

  /** The path counts of the first `n` direct peers fit into the counters. */
  ghost predicate PeersFit(g: Dag, v: NodeId, n: nat)
    requires n <= g.Degree(v)
  {
    forall i :: 0 <= i < n ==> Fits(g, g.Peers(v)[i])
  }

  /** A stored closure is exact: order and counts (modulo 2^31) always, flags where the counts fit. */
  ghost predicate StoredExactly(g: Dag, rules: Rules, v: NodeId, c: Closure) {
    && v in g.direct && Represents(g, v, g.Degree(v), c)
    && (Fits(g, v) ==> FlagsExact(g, rules, v, g.Degree(v), c))
  }

  ghost predicate Collected(g: Dag, rules: Rules, managed: map<NodeId, Closure>) {
    PeersFirst(g, managed.Keys) && forall v :: v in managed ==> StoredExactly(g, rules, v, managed[v])
  }

  /** The closure after the first `n` direct peers. */
  ghost predicate IsExact(g: Dag, rules: Rules, v: NodeId, n: nat, c: Closure)
    requires n <= g.Degree(v)
  {
    Represents(g, v, n, c) && (PeersFit(g, v, n) ==> FlagsExact(g, rules, v, n, c))
  }

  /** If the counts of a module fit, so do those of its peers. */
  lemma FitsDownwards(g: Dag, v: NodeId)
    requires Fits(g, v)
    ensures PeersFit(g, v, g.Degree(v))
  {
    forall i, u | 0 <= i < g.Degree(v)
      ensures Paths(g, g.Peers(v)[i], u) < LIMIT31
    {
      EdgeReaches(g, v, g.Degree(v), i, g.Peers(v)[i]);
      PeerPathsAtMost(g, v, g.Degree(v), g.Peers(v)[i], u);
      assert Paths(g, v, u) < LIMIT31;
    }
  }

  lemma {:induction false} FinishedDownwards(g: Dag, finished: set<NodeId>, v: NodeId, n: nat, u: NodeId)
    requires PeersFirst(g, finished) && v in finished && n <= g.Degree(v) && PathsVia(g, v, n, u) > 0
    ensures u in finished
    decreases g.rank(v), n
  {
    var d := g.Peers(v)[n - 1];
    if PathsVia(g, v, n - 1, u) > 0 {
      FinishedDownwards(g, finished, v, n - 1, u);
    } else if d != u {
      FinishedDownwards(g, finished, d, g.Degree(d), u);
    }
  }

  lemma CollectedExact(g: Dag, rules: Rules, managed: map<NodeId, Closure>, v: NodeId)
    requires Collected(g, rules, managed) && v in managed
    ensures Fits(g, v) ==> Exact(g, v, managed[v], managed)
    ensures forall w :: w in managed[v].stats ==> w in managed && managed[w].stats.Keys <= managed[v].stats.Keys
  {
    assert StoredExactly(g, rules, v, managed[v]);
    forall w | w in managed[v].stats
      ensures w in managed && managed[w].stats.Keys <= managed[v].stats.Keys
    {
      assert Counts(g, v, g.Degree(v), managed[v], w);
      FinishedDownwards(g, managed.Keys, v, g.Degree(v), w);
      assert StoredExactly(g, rules, w, managed[w]);
      forall u | u in managed[w].stats
        ensures u in managed[v].stats
      {
        assert Counts(g, w, g.Degree(w), managed[w], u) && Counts(g, v, g.Degree(v), managed[v], u);
        ReachesTransitive(g, v, g.Degree(v), w, u);
      }
    }
  }

  /** Excluding changes flags only, so the result still describes the same paths. */
  lemma ExcludingRepresents(g: Dag, v: NodeId, c: Closure, blocked: NodeId -> bool, closures: map<NodeId, Closure>)
    requires Represents(g, v, g.Degree(v), c)
    ensures Represents(g, v, g.Degree(v), Excluding(c, blocked, closures))
  {
    var r := Excluding(c, blocked, closures);
    forall u
      ensures Counts(g, v, g.Degree(v), r, u)
    {
      assert Counts(g, v, g.Degree(v), c, u);
    }
  }

  /** The flag a merge leaves for one node. */
  lemma MergedFlag(into: Closure, d: NodeId, peers: Closure, u: NodeId)
    requires Listed(into) && Listed(peers) && u in Merged(into, d, peers, 1).stats
    ensures Merged(into, d, peers, 1).stats[u].excluded <==>
      u != d && (u in into.stats ==> into.stats[u].excluded) && (u in peers.stats ==> peers.stats[u].excluded)
  {
    MergedContains(into, d, peers, 1, u);
  }

  /** One iteration of `MergeClosure`. */
  lemma MergePeerExact(g: Dag, rules: Rules, managed: map<NodeId, Closure>, v: NodeId, n: nat, c: Closure)
    requires Collected(g, rules, managed) && n < g.Degree(v) && g.Peers(v)[n] in managed
    requires IsExact(g, rules, v, n, c)
    ensures var d := g.Peers(v)[n];
      IsExact(g, rules, v, n + 1, Merged(c, d, Excluding(managed[d], rules(v), managed), 1))
  {
    var d := g.Peers(v)[n];
    assert StoredExactly(g, rules, d, managed[d]);
    ExcludingRepresents(g, d, managed[d], rules(v), managed);
    var kept := Excluding(managed[d], rules(v), managed);
    MergeRepresents(g, v, n, c, kept);
    if PeersFit(g, v, n + 1) {
      assert Fits(g, d) && PeersFit(g, v, n);
      FlagsStep(g, rules, managed, v, n, c);
    }
  }

  lemma FlagsStep(g: Dag, rules: Rules, managed: map<NodeId, Closure>, v: NodeId, n: nat, c: Closure)
    requires Collected(g, rules, managed) && n < g.Degree(v) && g.Peers(v)[n] in managed && Fits(g, g.Peers(v)[n])
    requires Represents(g, v, n, c) && FlagsExact(g, rules, v, n, c)
    ensures var d := g.Peers(v)[n]; FlagsExact(g, rules, v, n + 1, Merged(c, d, Excluding(managed[d], rules(v), managed), 1))
  {
    var d := g.Peers(v)[n];
    CollectedExact(g, rules, managed, d);
    assert StoredExactly(g, rules, d, managed[d]);
    var r := Merged(c, d, Excluding(managed[d], rules(v), managed), 1);
    forall u | u in r.stats
      ensures FlagExact(g, rules, v, n + 1, r, u)
    {
      FlagStep(g, rules, managed, v, n, c, u);
    }
  }

  lemma FlagStep(g: Dag, rules: Rules, managed: map<NodeId, Closure>, v: NodeId, n: nat, c: Closure, u: NodeId)
    requires n < g.Degree(v) && g.Peers(v)[n] in managed
    requires Exact(g, g.Peers(v)[n], managed[g.Peers(v)[n]], managed)
    requires FlagsExact(g, rules, g.Peers(v)[n], g.Degree(g.Peers(v)[n]), managed[g.Peers(v)[n]])
    requires Represents(g, v, n, c) && FlagsExact(g, rules, v, n, c)
    requires var d := g.Peers(v)[n]; u in Merged(c, d, Excluding(managed[d], rules(v), managed), 1).stats
    ensures var d := g.Peers(v)[n];
      Merged(c, d, Excluding(managed[d], rules(v), managed), 1).stats[u].excluded <==> MarkedVia(g, rules, v, n + 1, u)
  {
    var d := g.Peers(v)[n];
    var kept := Excluding(managed[d], rules(v), managed);
    MergedFlag(c, d, kept, u);
    assert Counts(g, d, g.Degree(d), managed[d], u) && Counts(g, v, n, c, u);
    assert u in managed[d].stats ==> FlagExact(g, rules, d, g.Degree(d), managed[d], u);
    assert u in c.stats ==> FlagExact(g, rules, v, n, c, u);
    if u in managed[d].stats { ExcludeExact(g, rules(v), d, managed[d], managed, u); }
    if u !in c.stats { NotReachedMarked(g, rules, v, n, u); }
    MarkedStep(g, rules, v, n, u);
  }

  lemma MarkedStep(g: Dag, rules: Rules, v: NodeId, n: nat, u: NodeId)
    requires n < g.Degree(v)
    ensures var d := g.Peers(v)[n];
      MarkedVia(g, rules, v, n + 1, u) <==>
        && MarkedVia(g, rules, v, n, u)
        && d != u
        && (Reaches(g, d, u) ==> Marked(g, rules, d, u) || AllBlocked(g, rules(v), d, u))
  {}

  lemma NotReachedMarked(g: Dag, rules: Rules, v: NodeId, n: nat, u: NodeId)
    requires n <= g.Degree(v) && PathsVia(g, v, n, u) == 0
    ensures MarkedVia(g, rules, v, n, u)
  {
    forall i | 0 <= i < n
      ensures g.Peers(v)[i] != u && !Reaches(g, g.Peers(v)[i], u)
    {
      if g.Peers(v)[i] == u || Reaches(g, g.Peers(v)[i], u) { EdgeReaches(g, v, n, i, u); }
    }
  }

  /** A peer's closure, excluded under the rules of the module itself, merged in. */
  ghost function MergedPeer(managed: map<NodeId, Closure>, c: Closure, d: NodeId, excluded: NodeId -> bool): Closure {
    if d in managed && Listed(managed[d]) then Merged(c, d, Excluding(managed[d], excluded, managed), 1) else c
  }

  ghost function MergedFirst(managed: map<NodeId, Closure>, peers: seq<NodeId>, excluded: NodeId -> bool, n: nat): Closure
    requires n <= |peers|
  {
    if n == 0 then EMPTY else MergedPeer(managed, MergedFirst(managed, peers, excluded, n - 1), peers[n - 1], excluded)
  }

  /** The merged closure has exact counts and order, and exactly the flags of the reference. */
  lemma {:induction false} MergedFirstExact(g: Dag, rules: Rules, managed: map<NodeId, Closure>, v: NodeId, n: nat)
    requires Collected(g, rules, managed) && n <= g.Degree(v) && forall i :: 0 <= i < n ==> g.Peers(v)[i] in managed
    ensures IsExact(g, rules, v, n, MergedFirst(managed, g.Peers(v), rules(v), n))
  {
    if n > 0 {
      var prior := MergedFirst(managed, g.Peers(v), rules(v), n - 1);
      MergedFirstExact(g, rules, managed, v, n - 1);
      MergePeerExact(g, rules, managed, v, n - 1, prior);
      assert MergedPeer(managed, prior, g.Peers(v)[n - 1], rules(v)) ==
        Merged(prior, g.Peers(v)[n - 1], Excluding(managed[g.Peers(v)[n - 1]], rules(v), managed), 1);
    }
  }

  lemma CollectedMore(g: Dag, rules: Rules, managed: map<NodeId, Closure>, v: NodeId)
    requires Collected(g, rules, managed) && v in g.direct && v !in managed
    requires forall i :: 0 <= i < g.Degree(v) ==> g.Peers(v)[i] in managed
    ensures Collected(g, rules, managed[v := MergedFirst(managed, g.Peers(v), rules(v), g.Degree(v))])
  {
    var c := MergedFirst(managed, g.Peers(v), rules(v), g.Degree(v));
    assert StoredExactly(g, rules, v, c) by {
      MergedFirstExact(g, rules, managed, v, g.Degree(v));
      if Fits(g, v) { FitsDownwards(g, v); }
    }
    var now := managed[v := c];
    forall w | w in now
      ensures StoredExactly(g, rules, w, now[w])
    {
      if w != v { assert StoredExactly(g, rules, w, managed[w]); }
    }
  }

  /** A module that no other of a set uses. */
  lemma {:induction false} Topmost(g: Dag, nodes: set<NodeId>) returns (v: NodeId)
    requires nodes != {}
    ensures v in nodes && forall w :: w in nodes ==> g.rank(w) <= g.rank(v)
    decreases |nodes|
  {
    v :| v in nodes;
    if nodes != {v} {
      var u := Topmost(g, nodes - {v});
      if g.rank(u) > g.rank(v) { v := u; }
    }
  }

  /** Whatever the graph and the rules, any modules that have their peers among them can be collected. */
  lemma {:induction false} SomeCollected(g: Dag, rules: Rules, nodes: set<NodeId>) returns (managed: map<NodeId, Closure>)
    requires nodes <= g.direct.Keys && PeersFirst(g, nodes)
    ensures Collected(g, rules, managed) && managed.Keys == nodes
    decreases |nodes|
  {
    managed := map[];
    if nodes != {} {
      var v := Topmost(g, nodes);
      forall w, i | w in nodes - {v} && 0 <= i < g.Degree(w)
        ensures g.Peers(w)[i] in nodes - {v}
      {
        assert g.Peers(w)[i] in nodes;
      }
      managed := SomeCollected(g, rules, nodes - {v});
      forall i | 0 <= i < g.Degree(v)
        ensures g.Peers(v)[i] in managed
      {
        assert g.Peers(v)[i] in nodes;
      }
      CollectedMore(g, rules, managed, v);
      managed := managed[v := MergedFirst(managed, g.Peers(v), rules(v), g.Degree(v))];
    }
  }

  // ---------------------------------------------------------------- soundness over paths

  /** Some node of the path is excluded by the rules of an earlier node of the path that is not
      its immediate predecessor. */
  ghost predicate BlockedByAncestor(g: Dag, rules: Rules, v: NodeId, p: seq<nat>) {
    SomeBlocked(rules, [v] + Visited(g, v, p))
  }

  ghost predicate SomeBlocked(rules: Rules, nodes: seq<NodeId>) {
    exists i, j :: 0 <= i && i + 2 <= j < |nodes| && rules(nodes[i])(nodes[j])
  }

  lemma {:induction false} PathReaches(g: Dag, v: NodeId, p: seq<nat>, u: NodeId)
    requires IsPath(g, v, p, u)
    ensures Reaches(g, v, u)
    decreases p
  {
    if |p| > 1 { PathReaches(g, g.Peers(v)[p[0]], p[1..], u); }
    EdgeReaches(g, v, g.Degree(v), p[0], u);
  }

  /** Nested exclusion is sound: whatever rules the modules have, a marked node has every path
      blocked by the rules of a non-immediate ancestor on that path. */
  lemma {:induction false} MarkedIsSound(g: Dag, rules: Rules, v: NodeId, u: NodeId, p: seq<nat>)
    requires Marked(g, rules, v, u) && IsPath(g, v, p, u)
    ensures BlockedByAncestor(g, rules, v, p)
    decreases p
  {
    var d, rest := g.Peers(v)[p[0]], p[1..];
    MarkedEdge(g, rules, v, p[0], u);
    PathReaches(g, d, rest, u);
    assert [v] + Visited(g, v, p) == [v] + ([d] + Visited(g, d, rest));
    if Marked(g, rules, d, u) {
      MarkedIsSound(g, rules, d, u, rest);
      ShiftBlocked(rules, v, [d] + Visited(g, d, rest));
    } else {
      BlockedHere(g, rules, v, d, rest, u);
    }
  }

  lemma MarkedEdge(g: Dag, rules: Rules, v: NodeId, i: nat, u: NodeId)
    requires Marked(g, rules, v, u) && i < g.Degree(v)
    ensures var d := g.Peers(v)[i];
      d != u && (Reaches(g, d, u) ==> Marked(g, rules, d, u) || AllBlocked(g, rules(v), d, u))
  {}

  /** A peer of a direct peer is marked only if the module itself excludes it. */
  lemma PeerOfPeerUnmarked(g: Dag, rules: Rules, v: NodeId, i: nat, j: nat)
    requires i < g.Degree(v) && j < g.Degree(g.Peers(v)[i]) && !rules(v)(g.Peers(g.Peers(v)[i])[j])
    ensures var x := g.Peers(g.Peers(v)[i])[j]; Reaches(g, v, x) && !Marked(g, rules, v, x)
  {
    var d := g.Peers(v)[i];
    var x := g.Peers(d)[j];
    EdgeReaches(g, d, g.Degree(d), j, x);
    EdgeReaches(g, v, g.Degree(v), i, x);
    assert !Marked(g, rules, d, x) by {
      if Marked(g, rules, d, x) { MarkedEdge(g, rules, d, j, x); }
    }
    assert !AllBlocked(g, rules(v), d, x) by {
      assert IsPath(g, d, [j], x) && Visited(g, d, [j]) == [x] + Visited(g, x, []);
      assert !Meets(g, rules(v), d, [j]);
    }
    if Marked(g, rules, v, x) { MarkedEdge(g, rules, v, i, x); }
  }

  lemma BlockedHere(g: Dag, rules: Rules, v: NodeId, d: NodeId, rest: seq<nat>, u: NodeId)
    requires AllBlocked(g, rules(v), d, u) && IsPath(g, d, rest, u)
    ensures SomeBlocked(rules, [v] + ([d] + Visited(g, d, rest)))
  {
    var nodes := [v] + ([d] + Visited(g, d, rest));
    assert Meets(g, rules(v), d, rest);
    var j :| 0 <= j < |Visited(g, d, rest)| && rules(v)(Visited(g, d, rest)[j]);
    assert rules(nodes[0])(nodes[j + 2]);
  }

  lemma ShiftBlocked(rules: Rules, v: NodeId, tail: seq<NodeId>)
    requires SomeBlocked(rules, tail)
    ensures SomeBlocked(rules, [v] + tail)
  {
    var i, j :| 0 <= i && i + 2 <= j < |tail| && rules(tail[i])(tail[j]);
    var nodes := [v] + tail;
    assert rules(nodes[i + 1])(nodes[j + 1]);
  }

  /** Stored flags are sound over paths, and a direct peer is never marked. */
  lemma CollectedIsSound(g: Dag, rules: Rules, managed: map<NodeId, Closure>, v: NodeId, u: NodeId)
    requires Collected(g, rules, managed) && v in managed && Fits(g, v)
    requires u in managed[v].stats && managed[v].stats[u].excluded
    ensures forall p :: IsPath(g, v, p, u) ==> BlockedByAncestor(g, rules, v, p)
    ensures u !in g.Peers(v)
  {
    assert StoredExactly(g, rules, v, managed[v]);
    assert FlagExact(g, rules, v, g.Degree(v), managed[v], u);
    forall p | IsPath(g, v, p, u) { MarkedIsSound(g, rules, v, u, p); }
  }

  // ---------------------------------------------------------------- the collector

  class Collector {
    ghost const g: Dag
    const rules: Rules
    var managed: map<NodeId, Closure>

    ghost predicate Valid()
      reads this
    {
      Collected(g, rules, managed)
    }

    constructor (ghost g: Dag, rules: Rules)
      ensures Valid() && managed == map[] && this.g == g && this.rules == rules
    {
      this.g, this.rules, managed := g, rules, map[];
    }

    /** The closure of one peer, excluded under the rules of the module itself, is merged in. */
    method MergePeer(c: Closure, peerId: NodeId, excluded: NodeId -> bool) returns (r: Closure)
      requires Valid() && peerId in managed && Listed(c)
      ensures r == MergedPeer(managed, c, peerId, excluded) && Listed(r)
    {
      var closure := new PeersClosure.Of(c);
      var peer := new PeersClosure.Of(managed[peerId]);
      CollectedExact(g, rules, managed, peerId);
      var kept := peer.Exclude(excluded, managed);
      closure.Merge(peerId, kept, 1);
      r := closure.Value();
    }

    method MergeClosure(directPeers: seq<NodeId>, excluded: NodeId -> bool) returns (closure: Closure)
      requires Valid() && forall i :: 0 <= i < |directPeers| ==> directPeers[i] in managed
      ensures closure == MergedFirst(managed, directPeers, excluded, |directPeers|)
    {
      closure := EMPTY;
      for i := 0 to |directPeers|
        invariant Listed(closure) && closure == MergedFirst(managed, directPeers, excluded, i)
      {
        closure := MergePeer(closure, directPeers[i], excluded);
      }
    }

    /** A module is finished once all its peers are. */
    method Finish(v: NodeId, directPeers: seq<NodeId>)
      requires Valid() && v in g.direct && v !in managed && directPeers == g.Peers(v)
      requires forall i :: 0 <= i < g.Degree(v) ==> g.Peers(v)[i] in managed
      modifies this
      ensures Valid() && managed.Keys == old(managed.Keys) + {v}
      ensures forall w :: w in old(managed) ==> managed[w] == old(managed)[w]
    {
      var closure := MergeClosure(directPeers, rules(v));
      CollectedMore(g, rules, managed, v);
      managed := managed[v := closure];
    }
  }
}
