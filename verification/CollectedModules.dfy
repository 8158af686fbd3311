/** What the collector of closures builds is what the search for conflicts starts from. */
module CollectedModules {
  import opened ModuleGraph
  import opened PeersClosures
  import opened PeersClosureTheory
  import opened ConflictResolver
  import opened ConflictSearch
  import Collector = ClosureCollector

  /** The finished modules of the collector, with the resolution kinds of their direct peers. */
  ghost predicate FromCollector(g: Dag, managed: map<NodeId, Closure>, m: Modules) {
    && m.closures == managed && m.direct.Keys == managed.Keys
    && forall v :: v in m.direct ==> PeerIds(m.direct[v]) == g.Peers(v)
  }

  ghost function PeerIds(peers: seq<ResolvedPeer>): seq<NodeId> {
    seq(|peers|, i requires 0 <= i < |peers| => peers[i].id)
  }

  lemma PeersFinished(g: Dag, managed: map<NodeId, Closure>, m: Modules, v: NodeId)
    requires FromCollector(g, managed, m) && Collector.PeersFirst(g, managed.Keys) && v in m.direct
    ensures Ids(m.direct[v]) <= m.direct.Keys
  {
    forall x | x in Ids(m.direct[v])
      ensures x in m.direct
    {
      var i :| 0 <= i < |m.direct[v]| && m.direct[v][i].id == x;
      assert g.Peers(v)[i] == PeerIds(m.direct[v])[i] == x;
    }
  }

  /** Whatever has been collected so far is complete, so every statement about the search applies. */
  lemma CollectedIsComplete(g: Dag, rules: Collector.Rules, managed: map<NodeId, Closure>, m: Modules)
    requires Collector.Collected(g, rules, managed) && FromCollector(g, managed, m)
    ensures Complete(m)
  {
    forall v | v in m.direct
      ensures ModuleComplete(m, v)
    {
      PeersFinished(g, managed, m, v);
      Collector.CollectedExact(g, rules, managed, v);
      assert Collector.StoredExactly(g, rules, v, managed[v]);
    }
  }

  /** A module that is being finished, with versioned modules filed, poses a closed problem. */
  lemma CollectedIsClosed(g: Dag, rules: Collector.Rules, managed: map<NodeId, Closure>, p: Problem)
    requires Collector.Collected(g, rules, managed) && FromCollector(g, managed, p.m)
    requires forall i :: 0 <= i < |p.roots| ==> p.roots[i].id in managed
    requires forall d :: d in p.env.libIds ==> p.env.libIds[d] in managed
    ensures Closed(p)
  {
    CollectedIsComplete(g, rules, managed, p.m);
  }

  /** Module `v` is being finished: its peers are, the closure of the problem is the one merged from
      theirs, and the search excludes what the rules of the module exclude. */
  ghost predicate BeingFinished(g: Dag, rules: Collector.Rules, managed: map<NodeId, Closure>, v: NodeId, p: Problem) {
    && Collector.Collected(g, rules, managed) && FromCollector(g, managed, p.m)
    && v in g.direct && v !in managed && PeerIds(p.roots) == g.Peers(v) && PeersManaged(g, managed, v)
    && (forall d :: d in p.env.libIds ==> p.env.libIds[d] in managed)
    && p.excluded == rules(v) && p.closure == Collector.MergedFirst(managed, g.Peers(v), rules(v), g.Degree(v))
  }

  ghost predicate PeersManaged(g: Dag, managed: map<NodeId, Closure>, v: NodeId) {
    forall i :: 0 <= i < g.Degree(v) ==> g.Peers(v)[i] in managed
  }

  lemma BeingFinishedIsClosed(g: Dag, rules: Collector.Rules, managed: map<NodeId, Closure>, v: NodeId, p: Problem)
    requires BeingFinished(g, rules, managed, v, p)
    ensures Closed(p)
  {
    forall i | 0 <= i < |p.roots|
      ensures p.roots[i].id in managed
    {
      assert g.Peers(v)[i] == PeerIds(p.roots)[i];
    }
    CollectedIsClosed(g, rules, managed, p);
  }

  /** Peers of direct peers are in the closure unless the module itself excludes them. */
  lemma PeersOfPeersAdmitted(g: Dag, rules: Collector.Rules, managed: map<NodeId, Closure>, v: NodeId, p: Problem, i: nat, j: nat)
    requires BeingFinished(g, rules, managed, v, p) && Collector.PeersFit(g, v, g.Degree(v))
    requires i < g.Degree(v) && j < g.Degree(g.Peers(v)[i]) && !rules(v)(g.Peers(g.Peers(v)[i])[j])
    ensures p.closure.Contains(g.Peers(g.Peers(v)[i])[j])
  {
    var x := g.Peers(g.Peers(v)[i])[j];
    assert Reaches(g, v, x) && !Collector.Marked(g, rules, v, x) by { Collector.PeerOfPeerUnmarked(g, rules, v, i, j); }
    Collector.MergedFirstExact(g, rules, managed, v, g.Degree(v));
    assert Counts(g, v, g.Degree(v), p.closure, x);
    assert Collector.FlagExact(g, rules, v, g.Degree(v), p.closure, x);
  }

  lemma BroughtIsKept(p: Problem, t: NodeId, x: NodeId)
    requires Complete(p.m) && t in p.m.direct && Brought(p, t).Contains(x)
    ensures !p.excluded(x)
  {
    assert ModuleComplete(p.m, t);
  }
}
