/** A module, finished after all it uses, whose search loses a peer. */
module LostPeersExample {
  import opened Wrappers
  import opened ModuleGraph
  import opened PeersClosures
  import opened PeersClosureTheory
  import opened DependencyRules
  import opened ConflictResolver
  import opened ConflictSearch
  import opened ConflictResolution
  import opened ConflictTheory
  import opened CollectedModules
  import opened SearchStart
  import opened LostPeers
  import Collector = ClosureCollector

  // ---------------------------------------------------------------- rules that exclude nothing

  lemma {:induction false} NothingCounted(c: Closure, excluded: NodeId -> bool, closures: map<NodeId, Closure>, k: nat)
    requires Listed(c) && k <= |c.topSort| && forall x :: !excluded(x)
    ensures ExcludedPaths(c, excluded, closures, k) == map[]
    decreases |c.topSort| - k
  {
    if k < |c.topSort| { NothingCounted(c, excluded, closures, k + 1); }
  }

  lemma NothingExcluded(c: Closure, excluded: NodeId -> bool, closures: map<NodeId, Closure>, u: NodeId)
    requires Listed(c) && forall x :: !excluded(x)
    ensures Listed(Excluding(c, excluded, closures)) && (Excluding(c, excluded, closures).Contains(u) <==> c.Contains(u))
  {
    NothingCounted(c, excluded, closures, 0);
  }

  lemma MergedOne(managed: map<NodeId, Closure>, prior: Closure, d: NodeId, excluded: NodeId -> bool, u: NodeId)
    requires Listed(prior) && d in managed && Listed(managed[d]) && forall x :: !excluded(x)
    ensures var c := Collector.MergedPeer(managed, prior, d, excluded);
      Listed(c) && (c.Contains(u) <==> prior.Contains(u) || d == u || managed[d].Contains(u))
  {
    NothingExcluded(managed[d], excluded, managed, u);
    MergedListed(prior, d, Excluding(managed[d], excluded, managed), 1);
    MergedContains(prior, d, Excluding(managed[d], excluded, managed), 1, u);
  }

  /** Without exclusions the closure of a module holds its peers and what their closures hold. */
  lemma TwoMerged(managed: map<NodeId, Closure>, peers: seq<NodeId>, excluded: NodeId -> bool, u: NodeId)
    requires |peers| == 2 && peers[0] in managed && peers[1] in managed && Listed(managed[peers[0]]) && Listed(managed[peers[1]])
    requires forall x :: !excluded(x)
    ensures Collector.MergedFirst(managed, peers, excluded, 2).Contains(u) <==>
      peers[0] == u || peers[1] == u || managed[peers[0]].Contains(u) || managed[peers[1]].Contains(u)
  {
    var c0, c1 := Collector.MergedFirst(managed, peers, excluded, 0), Collector.MergedFirst(managed, peers, excluded, 1);
    MergedOne(managed, c0, peers[0], excluded, u);
    MergedOne(managed, c1, peers[1], excluded, u);
  }

  lemma TwoIds(a: ResolvedPeer, b: ResolvedPeer)
    ensures PeerIds([a, b]) == [a.id, b.id]
  {}

  // ---------------------------------------------------------------- the modules

  /** Module 7 uses 5 and 6; 5 uses 4, which uses 1; 6 uses 3 in `lib/1`; and 2 in `lib/2` uses 1.
      Module 5 excludes 1, and module 7 asks for `lib/2`. */
  ghost function ExampleEdges(): map<NodeId, seq<NodeId>> {
    map[1 := [], 2 := [1], 3 := [], 4 := [1], 5 := [4], 6 := [3], 7 := [5, 6]]
  }

  ghost function ExampleRank(v: NodeId): nat {
    if v == 7 then 3 else if v == 5 then 2 else if v == 2 || v == 4 || v == 6 then 1 else 0
  }

  ghost function ExampleGraph(): Dag {
    Graph(ExampleEdges(), ExampleRank)
  }

  ghost function ExampleRules(): Collector.Rules { v => x => v == 5 && x == 1 }

  ghost function ExampleDir(id: NodeId): Dir {
    if id == 3 then ["lib", "1"] else if id == 2 then ["lib", "2"] else ["mod"]
  }

  ghost function ExampleDirect(): map<NodeId, seq<ResolvedPeer>> {
    map[1 := [], 2 := [ResolvedPeer(1, Unversioned)], 3 := [], 4 := [ResolvedPeer(1, Unversioned)],
        5 := [ResolvedPeer(4, Unversioned)], 6 := [ResolvedPeer(3, Direct)]]
  }

  ghost function Example(managed: map<NodeId, Closure>): Problem {
    Problem(
      Env(ExampleDir, id => id == 2 || id == 3, map[["lib", "1"] := 3, ["lib", "2"] := 2]),
      Rules(map[["lib"] := ["lib", "2"]], map[], [], false, false, false),
      Modules(ExampleDirect(), managed),
      [ResolvedPeer(5, Unversioned), ResolvedPeer(6, Unversioned)],
      Collector.MergedFirst(managed, [5, 6], ExampleRules()(7), 2),
      ExampleRules()(7))
  }

  ghost predicate Finished(managed: map<NodeId, Closure>) {
    Collector.Collected(ExampleGraph(), ExampleRules(), managed) && managed.Keys == {1, 2, 3, 4, 5, 6}
  }

  /** The collector gets there. */
  lemma ExampleFinished() returns (managed: map<NodeId, Closure>)
    ensures Finished(managed)
  {
    managed := Collector.SomeCollected(ExampleGraph(), ExampleRules(), {1, 2, 3, 4, 5, 6});
  }

  lemma ExamplePeers(managed: map<NodeId, Closure>)
    requires managed.Keys == {1, 2, 3, 4, 5, 6}
    ensures FromCollector(ExampleGraph(), managed, Example(managed).m)
  {
    forall v | v in ExampleDirect()
      ensures PeerIds(ExampleDirect()[v]) == ExampleGraph().Peers(v)
    {}
  }

  lemma ExampleRoots(managed: map<NodeId, Closure>)
    requires managed.Keys == {1, 2, 3, 4, 5, 6}
    ensures ExampleGraph().Peers(7) == [5, 6] && PeersManaged(ExampleGraph(), managed, 7)
  {}

  lemma ExampleLibs(managed: map<NodeId, Closure>)
    requires managed.Keys == {1, 2, 3, 4, 5, 6}
    ensures var libIds := Example(managed).env.libIds; forall d :: d in libIds ==> libIds[d] in managed
  {}

  lemma ExampleBeingFinished(managed: map<NodeId, Closure>)
    requires Finished(managed)
    ensures BeingFinished(ExampleGraph(), ExampleRules(), managed, 7, Example(managed))
  {
    ExamplePeers(managed);
    ExampleRoots(managed);
    ExampleLibs(managed);
    TwoIds(ResolvedPeer(5, Unversioned), ResolvedPeer(6, Unversioned));
  }

  // ---------------------------------------------------------------- what their closures hold

  /** Modules below which nobody has two peers have at most one path to each. */
  lemma {:induction false} OnePath(g: Dag, v: NodeId, u: NodeId)
    requires forall w :: g.rank(w) <= g.rank(v) ==> g.Degree(w) <= 1
    ensures Paths(g, v, u) <= 1
    decreases g.rank(v)
  {
    if g.Degree(v) == 1 {
      var d := g.Peers(v)[0];
      assert PathsVia(g, v, 0, u) == 0;
      if Paths(g, d, u) > 0 { RankDecreases(g, d, g.Degree(d), u); }
      OnePath(g, d, u);
    }
  }

  lemma ExampleFits(v: NodeId)
    requires v != 7
    ensures Fits(ExampleGraph(), v)
  {
    forall u
      ensures Paths(ExampleGraph(), v, u) < LIMIT31
    {
      OnePath(ExampleGraph(), v, u);
    }
  }

  /** A module with a single peer holds it, and passes on what the peer reaches unless marked. */
  lemma OnePeerHolds(managed: map<NodeId, Closure>, v: NodeId, d: NodeId, u: NodeId)
    requires Finished(managed) && v in managed && ExampleGraph().Peers(v) == [d]
    ensures managed[v].Contains(u) <==> u == d || (Reaches(ExampleGraph(), d, u) && !Collector.Marked(ExampleGraph(), ExampleRules(), v, u))
  {
    var g := ExampleGraph();
    ExampleFits(v);
    assert Collector.StoredExactly(g, ExampleRules(), v, managed[v]);
    assert Counts(g, v, 1, managed[v], u);
    assert PathsVia(g, v, 0, u) == 0;
    assert u in managed[v].stats ==> Collector.FlagExact(g, ExampleRules(), v, 1, managed[v], u);
  }

  lemma SinglePeers()
    ensures var g := ExampleGraph(); g.Peers(2) == [1] && g.Peers(5) == [4] && g.Peers(6) == [3]
  {}

  lemma NoPeersReachNothing(v: NodeId, u: NodeId)
    requires v == 1 || v == 3
    ensures !Reaches(ExampleGraph(), v, u)
  {
    assert ExampleGraph().Peers(v) == [];
  }

  lemma LeafHolds(managed: map<NodeId, Closure>, v: NodeId, d: NodeId, u: NodeId)
    requires Finished(managed) && v in managed && ExampleGraph().Peers(v) == [d] && (d == 1 || d == 3)
    ensures managed[v].Contains(u) <==> u == d
  {
    NoPeersReachNothing(d, u);
    OnePeerHolds(managed, v, d, u);
  }

  /** Module 5 excludes 1 on its only path. */
  lemma FiveMarksOne(managed: map<NodeId, Closure>)
    requires Finished(managed)
    ensures managed[5].Contains(4) && !managed[5].Contains(1)
  {
    var g, rules := ExampleGraph(), ExampleRules();
    SinglePeers();
    OnePeerHolds(managed, 5, 4, 4);
    OnePeerHolds(managed, 5, 4, 1);
    assert AllBlocked(g, rules(5), 4, 1) by { AllBlockedByCount(g, rules(5), 4, 1); }
  }

  lemma ExampleListed(managed: map<NodeId, Closure>, v: NodeId)
    requires Finished(managed) && v in managed
    ensures Listed(managed[v])
  {
    assert Collector.StoredExactly(ExampleGraph(), ExampleRules(), v, managed[v]);
  }

  lemma ExampleClosure(managed: map<NodeId, Closure>, u: NodeId)
    requires Finished(managed)
    ensures Example(managed).closure.Contains(u) <==> u == 5 || u == 6 || managed[5].Contains(u) || managed[6].Contains(u)
  {
    ExampleListed(managed, 5);
    ExampleListed(managed, 6);
    TwoMerged(managed, [5, 6], ExampleRules()(7), u);
  }

  lemma SixHolds(managed: map<NodeId, Closure>, u: NodeId)
    requires Finished(managed)
    ensures managed[6].Contains(u) <==> u == 3
  {
    SinglePeers();
    LeafHolds(managed, 6, 3, u);
  }

  // ---------------------------------------------------------------- the lost peer

  lemma ExampleContains(managed: map<NodeId, Closure>)
    requires Finished(managed)
    ensures var c := Example(managed).closure;
      c.Contains(5) && c.Contains(6) && c.Contains(4) && c.Contains(3) && !c.Contains(1)
  {
    FiveMarksOne(managed);
    SixHolds(managed, 3);
    SixHolds(managed, 1);
    ExampleClosure(managed, 5);
    ExampleClosure(managed, 6);
    ExampleClosure(managed, 4);
    ExampleClosure(managed, 3);
    ExampleClosure(managed, 1);
  }

  lemma ExampleLined(managed: map<NodeId, Closure>)
    requires Finished(managed) && Closed(Example(managed))
    ensures Lined(Example(managed), ResolvedPeer(4, Unversioned), ResolvedPeer(3, Direct))
  {
    ExampleContains(managed);
    RootIds(Example(managed));
  }

  lemma ExampleReplaced(managed: map<NodeId, Closure>)
    ensures ReplacedBy(Example(managed).env, Example(managed).rules, ResolvedPeer(3, Direct), 2)
  {
    var p := Example(managed);
    assert Parent(["lib", "1"]) == ["lib"];
    assert GetRuleForPeer(p.rules, ["lib", "1"], false) == ["lib", "2"];
  }

  lemma BroughtWhole(p: Problem, t: NodeId, x: NodeId)
    requires Complete(p.m) && t in p.m.direct && (forall y :: !p.excluded(y)) && p.m.closures[t].Contains(x)
    ensures Brought(p, t).Contains(x)
  {
    assert ModuleComplete(p.m, t);
    NothingExcluded(p.m.closures[t], p.excluded, p.m.closures, x);
  }

  lemma TwoHoldsOne(managed: map<NodeId, Closure>)
    requires Finished(managed)
    ensures managed[2].Contains(1)
  {
    SinglePeers();
    LeafHolds(managed, 2, 1, 1);
  }

  lemma ExampleBrought(managed: map<NodeId, Closure>)
    requires Finished(managed) && Complete(Example(managed).m)
    ensures 2 in Example(managed).m.direct && Brought(Example(managed), 2).Contains(1)
  {
    TwoHoldsOne(managed);
    BroughtWhole(Example(managed), 2, 1);
  }

  lemma ExampleOvertaken(managed: map<NodeId, Closure>)
    requires Finished(managed) && Closed(Example(managed))
    ensures Overtaken(Example(managed), 4, ResolvedPeer(3, Direct), 2, 1)
  {
    ExampleContains(managed);
    ExampleLined(managed);
    ExampleReplaced(managed);
    ExampleBrought(managed);
    assert [ResolvedPeer(1, Unversioned)][0].id == 1;
  }

  /** When module 7 is finished, the replacement of 3 brings module 1 in, and still it is not visited. */
  lemma ExampleLost(managed: map<NodeId, Closure>)
    requires Finished(managed)
    ensures var p := Example(managed);
      && BeingFinished(ExampleGraph(), ExampleRules(), managed, 7, p) && Closed(p)
      && BroughtIn(p, Final(p).trace, 1) && !IsVisited(Final(p).trace, 1)
  {
    var p := Example(managed);
    ExampleBeingFinished(managed);
    BeingFinishedIsClosed(ExampleGraph(), ExampleRules(), managed, 7, p);
    ExampleOvertaken(managed);
    OvertakenIsLost(p, 4, ResolvedPeer(3, Direct), 2, 1);
  }
}
