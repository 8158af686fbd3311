/** Peers that are met before a replacement brings them in. */
module LostPeers {
  import opened Wrappers
  import opened ModuleGraph
  import opened PeersClosures
  import opened PeersClosureTheory
  import opened DependencyRules
  import opened ConflictResolver
  import opened ConflictSearch
  import opened ConflictResolution
  import opened ConflictTheory
  import opened CollectedModules
  import opened SearchStart
  import Collector = ClosureCollector

  // ---------------------------------------------------------------- no loss at the direct peers

  lemma ListedPeer(g: Dag, managed: map<NodeId, Closure>, m: Modules, d: NodeId, x: NodeId) returns (j: nat)
    requires FromCollector(g, managed, m) && d in m.direct && x in Ids(m.direct[d])
    ensures j < g.Degree(d) && g.Peers(d)[j] == x
  {
    j :| 0 <= j < |m.direct[d]| && m.direct[d][j].id == x;
    assert PeerIds(m.direct[d])[j] == x;
  }

  /** Whatever the collector has stored: a peer that is first met at a direct peer of the module is
      not lost.  If any replacement brings it in, it is visited. */
  lemma NotLostNearby(g: Dag, rules: Collector.Rules, managed: map<NodeId, Closure>, v: NodeId, p: Problem, i: nat, k: nat, j: nat, x: NodeId)
    requires BeingFinished(g, rules, managed, v, p) && Collector.PeersFit(g, v, g.Degree(v)) && i < g.Degree(v) && Closed(p)
    requires k < |Final(p).trace| && NewAt(p, Final(p).trace, k, x) && Final(p).trace[k].next == Some(g.Peers(v)[i])
    requires j < |Final(p).trace| && Brings(p, Final(p).trace[j], x) && Final(p).trace[j].next != Some(x)
    ensures IsVisited(Final(p).trace, x)
  {
    var trace := Final(p).trace;
    assert !p.excluded(x) by { BroughtIsKept(p, trace[j].next.value, x); }
    var e := ListedPeer(g, managed, p.m, g.Peers(v)[i], x);
    assert p.closure.Contains(x) by { PeersOfPeersAdmitted(g, rules, managed, v, p, i, e); }
    FirstMeetingDecides(p, k, x);
  }

  // ---------------------------------------------------------------- loss one level deeper

  /** The direct peers have one peer each, `c` and the version `w`.  The closure holds both, but not
      `x`, which `c` lists; and `w` is replaced by `t`, whose closure holds `x`. */
  ghost predicate Overtaken(p: Problem, c: NodeId, w: ResolvedPeer, t: NodeId, x: NodeId) {
    && Lined(p, ResolvedPeer(c, Unversioned), w) && x in Ids(p.m.direct[c]) && !p.closure.Contains(x)
    && ReplacedBy(p.env, p.rules, w, t) && t in p.m.direct && Brought(p, t).Contains(x)
  }

  /** A rule replaces a version that is no direct peer. */
  ghost predicate ReplacedBy(env: Env, rules: Rules, w: ResolvedPeer, t: NodeId) {
    && w.kind != Unversioned && t != w.id
    && var rule := ExplicitResolution(env, rules, env.dirOf(w.id), false);
       rule.Some? && env.libIds[rule.value] == t
  }

  /** What a search shows that has met no version yet. */
  datatype Front = Front(queue: seq<ResolvedPeer>, visited: set<NodeId>, trace: seq<Visit>, accumulated: set<NodeId>, depth: nat, currDepthEnd: nat)

  ghost predicate Shows(p: Problem, s: Search, f: Front) {
    && Inv(p, s) && Run(p, s) == Final(p) && s.explicit == EMPTY && s.st.resolutions == map[]
    && f == Front(s.queue, s.visited, s.trace, s.st.accumulated.Keys, s.depth, s.currDepthEnd)
  }

  /** An unversioned peer is next, for the first time. */
  ghost predicate PlainNext(p: Problem, f: Front) {
    f.queue != [] && f.queue[0].kind == Unversioned && f.queue[0].id !in f.accumulated && f.queue[0].id in p.m.direct
  }

  ghost function NextDepth(f: Front): nat { if |f.trace| == f.currDepthEnd then f.depth + 1 else f.depth }

  ghost function Next(p: Problem, f: Front): Front
    requires PlainNext(p, f)
  {
    var id := f.queue[0].id;
    Front(f.queue[1..] + Fresh(p.m.direct[id], f.visited, Admits(p, EMPTY)), f.visited + Ids(p.m.direct[id]),
          f.trace + [Visit(f.queue[0], Some(id), NextDepth(f))], f.accumulated + {id},
          NextDepth(f), if |f.trace| == f.currDepthEnd then f.currDepthEnd + |f.queue| else f.currDepthEnd)
  }

  lemma PlainTurn(p: Problem, s: Search, f: Front) returns (t: Search)
    requires Shows(p, s, f) && PlainNext(p, f)
    ensures Shows(p, t, Next(p, f))
  {
    var v;
    v, t := Turn(p, s);
    assert Seen(s.visited, v) == s.visited;
  }

  lemma ThreeTurns(p: Problem, s: Search, f: Front) returns (t: Search)
    requires Shows(p, s, f) && PlainNext(p, f) && PlainNext(p, Next(p, f)) && PlainNext(p, Next(p, Next(p, f)))
    ensures Shows(p, t, Next(p, Next(p, Next(p, f))))
  {
    var a, b := Next(p, f), Next(p, Next(p, f));
    var s1 := PlainTurn(p, s, f);
    var s2 := PlainTurn(p, s1, a);
    t := PlainTurn(p, s2, b);
  }

  ghost function Start(p: Problem): Front { Front(p.roots, Ids(p.roots), [], {}, 0, 0) }

  lemma Started(p: Problem) returns (s: Search)
    requires Closed(p) && TwoRoots(p)
    ensures Shows(p, s, Start(p))
  {
    s := Begin(p);
    BothQueued(p);
  }

  lemma OneFresh(peer: ResolvedPeer, visited: set<NodeId>, admits: NodeId -> bool)
    requires peer.id !in visited && admits(peer.id)
    ensures Fresh([peer], visited, admits) == [peer] && Ids([peer]) == {peer.id}
  {
    assert [peer][1..] == [];
    assert Fresh([], visited + {peer.id}, admits) == [];
    assert [peer][0] == peer;
  }

  /** The peer has one peer itself, which is new and admitted. */
  lemma NextOfOne(p: Problem, f: Front, q: ResolvedPeer)
    requires PlainNext(p, f) && p.m.direct[f.queue[0].id] == [q] && q.id !in f.visited && p.closure.Contains(q.id)
    ensures Next(p, f).queue == f.queue[1..] + [q] && Next(p, f).visited == f.visited + {q.id}
  {
    OneFresh(q, f.visited, Admits(p, EMPTY));
  }

  lemma RootIds(p: Problem)
    requires TwoRoots(p)
    ensures Ids(p.roots) == {p.roots[0].id, p.roots[1].id}
  {}

  ghost predicate Lined(p: Problem, c: ResolvedPeer, w: ResolvedPeer) {
    && Closed(p) && TwoRoots(p) && p.roots[0].kind == p.roots[1].kind == Unversioned
    && p.roots[0].id in p.m.direct && p.roots[1].id in p.m.direct && c.id in p.m.direct
    && p.m.direct[p.roots[0].id] == [c] && c.id !in Ids(p.roots) && p.closure.Contains(c.id)
    && p.m.direct[p.roots[1].id] == [w] && w.id !in Ids(p.roots) && w.id != c.id && p.closure.Contains(w.id)
  }

  /** The fronts after the first and the second direct peer. */
  lemma FirstFront(p: Problem, c: ResolvedPeer, w: ResolvedPeer) returns (f: Front)
    requires Lined(p, c, w)
    ensures PlainNext(p, Start(p)) && f == Next(p, Start(p))
    ensures f == Front([p.roots[1], c], Ids(p.roots) + {c.id}, [Visit(p.roots[0], Some(p.roots[0].id), 1)], {p.roots[0].id}, 1, 2)
  {
    f := Next(p, Start(p));
    NextOfOne(p, Start(p), c);
    assert p.roots[1..] == [p.roots[1]];
  }

  lemma SecondFront(p: Problem, c: ResolvedPeer, w: ResolvedPeer, f: Front) returns (g: Front)
    requires Lined(p, c, w)
    requires f == Front([p.roots[1], c], Ids(p.roots) + {c.id}, [Visit(p.roots[0], Some(p.roots[0].id), 1)], {p.roots[0].id}, 1, 2)
    ensures PlainNext(p, f) && g == Next(p, f) && g.queue == [c, w]
    ensures g.trace == [Visit(p.roots[0], Some(p.roots[0].id), 1), Visit(p.roots[1], Some(p.roots[1].id), 1)]
    ensures g.accumulated == {p.roots[0].id} + {p.roots[1].id} && g.depth == 1 && g.currDepthEnd == 2
  {
    g := Next(p, f);
    NextOfOne(p, f, w);
    assert f.queue[1..] == [c];
  }

  /** The front after `c`, with which the second level begins. */
  lemma ThirdFront(p: Problem, c: ResolvedPeer, w: ResolvedPeer, f: Front) returns (g: Front)
    requires f.queue == [c, w] && PlainNext(p, f) && |f.trace| == f.currDepthEnd == 2 && f.depth == 1
    ensures g == Next(p, f) && g.queue != [] && g.queue[0] == w && g.accumulated == f.accumulated + {c.id}
    ensures g.trace == f.trace + [Visit(c, Some(c.id), 2)] && g.depth == 2 && g.currDepthEnd == 4
  {
    g := Next(p, f);
    assert f.queue[1..] == [w];
  }

  lemma ReplacingResolved(env: Env, rules: Rules, st: State, w: ResolvedPeer, t: NodeId, depth: nat)
    requires ReplacedBy(env, rules, w, t) && depth != 1 && st.resolutions == map[] && w.id !in st.accumulated
    ensures Resolved(env, rules, st, w, depth).1 == Some(t)
  {}

  /** The first four visits. */
  ghost predicate StartsSo(p: Problem, trace: seq<Visit>, c: NodeId, w: ResolvedPeer, t: NodeId)
    requires TwoRoots(p)
  {
    && |trace| >= 4
    && trace[0] == Visit(p.roots[0], Some(p.roots[0].id), 1) && trace[1] == Visit(p.roots[1], Some(p.roots[1].id), 1)
    && trace[2] == Visit(ResolvedPeer(c, Unversioned), Some(c), 2) && trace[3] == Visit(w, Some(t), 2)
  }

  /** The visit of a version that a rule replaces, below the direct peers. */
  lemma ReplacingTurn(p: Problem, s: Search, f: Front, w: ResolvedPeer, t: NodeId)
    requires Shows(p, s, f) && f.queue != [] && f.queue[0] == w && NextDepth(f) != 1
    requires w.id !in f.accumulated && ReplacedBy(p.env, p.rules, w, t)
    ensures f.trace + [Visit(w, Some(t), NextDepth(f))] <= Final(p).trace
  {
    ReplacingResolved(p.env, p.rules, s.st, w, t, NextDepth(f));
    var v, u := Turn(p, s);
    RunKeepsTrace(p, u);
  }

  lemma FourVisits(p: Problem, trace: seq<Visit>, start: seq<Visit>, c: NodeId, w: ResolvedPeer, t: NodeId)
    requires TwoRoots(p) && start <= trace && StartsSo(p, start, c, w, t)
    ensures StartsSo(p, trace, c, w, t)
  {
    assert forall i :: 0 <= i < 4 ==> start[i] == trace[i];
  }

  ghost predicate ThreePlain(p: Problem, f: Front) {
    PlainNext(p, f) && PlainNext(p, Next(p, f)) && PlainNext(p, Next(p, Next(p, f)))
  }

  lemma ThreeFronts(p: Problem, c: NodeId, w: ResolvedPeer, t: NodeId) returns (f: Front)
    requires Lined(p, ResolvedPeer(c, Unversioned), w)
    ensures ThreePlain(p, Start(p)) && f == Next(p, Next(p, Next(p, Start(p))))
    ensures f.queue != [] && f.queue[0] == w && w.id !in f.accumulated && NextDepth(f) == 2
    ensures StartsSo(p, f.trace + [Visit(w, Some(t), 2)], c, w, t)
  {
    var peer := ResolvedPeer(c, Unversioned);
    RootIds(p);
    var f1 := FirstFront(p, peer, w);
    var f2 := SecondFront(p, peer, w, f1);
    f := ThirdFront(p, peer, w, f2);
  }

  lemma AfterThree(p: Problem, f: Front, w: ResolvedPeer, t: NodeId)
    requires Closed(p) && TwoRoots(p) && ThreePlain(p, Start(p)) && f == Next(p, Next(p, Next(p, Start(p))))
    requires f.queue != [] && f.queue[0] == w && w.id !in f.accumulated && NextDepth(f) == 2 && ReplacedBy(p.env, p.rules, w, t)
    ensures f.trace + [Visit(w, Some(t), 2)] <= Final(p).trace
  {
    var s0 := Started(p);
    var s := ThreeTurns(p, s0, Start(p));
    ReplacingTurn(p, s, f, w, t);
  }

  lemma TraceStart(p: Problem, c: NodeId, w: ResolvedPeer, t: NodeId)
    requires Lined(p, ResolvedPeer(c, Unversioned), w) && ReplacedBy(p.env, p.rules, w, t)
    ensures StartsSo(p, Final(p).trace, c, w, t)
  {
    var f := ThreeFronts(p, c, w, t);
    var start := f.trace + [Visit(w, Some(t), 2)];
    assert start <= Final(p).trace by { AfterThree(p, f, w, t); }
    FourVisits(p, Final(p).trace, start, c, w, t);
  }

  lemma PeersOfVisit(p: Problem, v: Visit, q: ResolvedPeer)
    requires v.next.Some? && v.next.value in p.m.direct && p.m.direct[v.next.value] == [q]
    ensures Ids(Succ(p.m, v)) == {q.id}
  {
    assert [q][0].id == q.id;
  }

  /** `x` is first met at the visit of `c`, and not admitted by then. */
  lemma MetInVain(p: Problem, c: NodeId, w: ResolvedPeer, t: NodeId, x: NodeId, trace: seq<Visit>)
    requires Overtaken(p, c, w, t, x) && StartsSo(p, trace, c, w, t)
    ensures NewAt(p, trace, 2, x) && !Admitted(p, trace[..2 + 1], x) && Brings(p, trace[3], x)
  {
    RootIds(p);
    PeersOfVisit(p, trace[0], ResolvedPeer(c, Unversioned));
    PeersOfVisit(p, trace[1], w);
    assert trace[..2] == [trace[0], trace[1]] && trace[..2 + 1] == [trace[0], trace[1], trace[2]];
    assert !SomeMet(p, trace[..2], x) by {
      assert !MetBy(p, trace[0], x) && !MetBy(p, trace[1], x);
    }
    assert !BroughtIn(p, trace[..2 + 1], x) by {
      assert !Brings(p, trace[0], x) && !Brings(p, trace[1], x) && !Brings(p, trace[2], x);
    }
  }

  /** In every such problem `x` is brought in by a replacement, and still it is not visited. */
  lemma OvertakenIsLost(p: Problem, c: NodeId, w: ResolvedPeer, t: NodeId, x: NodeId)
    requires Overtaken(p, c, w, t, x)
    ensures BroughtIn(p, Final(p).trace, x) && !IsVisited(Final(p).trace, x)
  {
    assert StartsSo(p, Final(p).trace, c, w, t) by { TraceStart(p, c, w, t); }
    MetInVain(p, c, w, t, x, Final(p).trace);
    MetTooEarly(p, 2, 3, x);
  }
}
