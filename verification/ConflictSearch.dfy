/** The breadth-first search that resolves conflicts between versions. */
module ConflictSearch {
  import opened Wrappers
  import opened ModuleGraph
  import opened PeersClosures
  import opened DependencyRules
  import opened ConflictResolver

  function Ids(peers: seq<ResolvedPeer>): set<NodeId> {
    set i | 0 <= i < |peers| :: peers[i].id
  }

  /** Managed direct peers and closure of every finished module. */
  datatype Modules = Modules(direct: map<NodeId, seq<ResolvedPeer>>, closures: map<NodeId, Closure>)

  ghost predicate Complete(m: Modules) {
    && m.direct.Keys == m.closures.Keys
    && forall v {:trigger ModuleComplete(m, v)} :: v in m.direct ==> ModuleComplete(m, v)
  }

  ghost predicate ModuleComplete(m: Modules, v: NodeId)
    requires v in m.direct && v in m.closures
  {
    Ids(m.direct[v]) <= m.direct.Keys && Listed(m.closures[v]) && Nested(m, m.closures[v])
  }

  /** Closures are transitively closed. */
  ghost predicate Nested(m: Modules, c: Closure) {
    forall u :: u in c.stats ==> u in m.closures && m.closures[u].stats.Keys <= c.stats.Keys
  }

  // ---------------------------------------------------------------- queueing

  /** The peers that are queued: not seen before and admitted. */
  function Fresh(peers: seq<ResolvedPeer>, visited: set<NodeId>, admits: NodeId -> bool): seq<ResolvedPeer> {
    if peers == [] then []
    else
      var rest := Fresh(peers[1..], visited + {peers[0].id}, admits);
      if peers[0].id in visited || !admits(peers[0].id) then rest else [peers[0]] + rest
  }

  ghost predicate DistinctIds(peers: seq<ResolvedPeer>) {
    forall i, j :: 0 <= i < j < |peers| ==> peers[i].id != peers[j].id
  }

  lemma {:induction false} FreshProperties(peers: seq<ResolvedPeer>, visited: set<NodeId>, admits: NodeId -> bool)
    ensures var f := Fresh(peers, visited, admits);
      && DistinctIds(f)
      && forall i :: 0 <= i < |f| ==> f[i] in peers && f[i].id !in visited && admits(f[i].id)
    decreases peers
  {
    if peers != [] {
      FreshProperties(peers[1..], visited + {peers[0].id}, admits);
    }
  }

  lemma IdsFirst(peers: seq<ResolvedPeer>)
    requires peers != []
    ensures Ids(peers) == {peers[0].id} + Ids(peers[1..])
  {
    forall x | x in Ids(peers)
      ensures x in {peers[0].id} + Ids(peers[1..])
    {
      var i :| 0 <= i < |peers| && peers[i].id == x;
      if i > 0 { assert peers[1..][i - 1].id == x; }
    }
    forall x | x in Ids(peers[1..])
      ensures x in Ids(peers)
    {
      var i :| 0 <= i < |peers[1..]| && peers[1..][i].id == x;
      assert peers[i + 1].id == x;
    }
  }

  method EnqueDeps(peers: seq<ResolvedPeer>, visited: set<NodeId>, queue: seq<ResolvedPeer>, admits: NodeId -> bool)
    returns (visited': set<NodeId>, queue': seq<ResolvedPeer>)
    ensures visited' == visited + Ids(peers)
    ensures queue' == queue + Fresh(peers, visited, admits)
  {
    visited', queue' := visited, queue;
    for i := 0 to |peers|
      invariant visited' + Ids(peers[i..]) == visited + Ids(peers)
      invariant queue' + Fresh(peers[i..], visited', admits) == queue + Fresh(peers, visited, admits)
    {
      var peer, rest := peers[i], peers[i..];
      assert rest[0] == peer && rest[1..] == peers[i + 1..];
      IdsFirst(rest);
      var f := Fresh(rest[1..], visited' + {peer.id}, admits);
      if peer.id !in visited' && admits(peer.id) {
        assert queue' + ([peer] + f) == (queue' + [peer]) + f;
        queue' := queue' + [peer];
      }
      visited' := visited' + {peer.id};
    }
  }

  // ---------------------------------------------------------------- the search

  /** One visited module: the peer, what is traversed in its place, and the depth it had. */
  datatype Visit = Visit(peer: ResolvedPeer, next: Option<NodeId>, depth: nat)

  ghost function Succ(m: Modules, v: Visit): seq<ResolvedPeer> {
    if v.next.Some? && v.next.value in m.direct then m.direct[v.next.value] else []
  }

  /** A depth that some path of the traversal has: 1 for the roots, else one more than a visited
      module that leads here. */
  ghost predicate Reached(m: Modules, roots: seq<ResolvedPeer>, trace: seq<Visit>, id: NodeId, depth: nat) {
    || (depth == 1 && id in Ids(roots))
    || exists j :: 0 <= j < |trace| && trace[j].depth + 1 == depth && id in Ids(Succ(m, trace[j]))
  }

  /** A depth no path of the traversal undercuts. */
  ghost predicate Nearest(m: Modules, roots: seq<ResolvedPeer>, trace: seq<Visit>, id: NodeId, depth: nat) {
    && (id in Ids(roots) ==> depth <= 1)
    && forall j :: 0 <= j < |trace| && id in Ids(Succ(m, trace[j])) ==> depth <= trace[j].depth + 1
  }

  ghost predicate AtTrueDepth(m: Modules, roots: seq<ResolvedPeer>, trace: seq<Visit>, id: NodeId, depth: nat) {
    Reached(m, roots, trace, id, depth) && Nearest(m, roots, trace, id, depth)
  }

  ghost predicate InOrder(trace: seq<Visit>) {
    forall i, j :: 0 <= i < j < |trace| ==> trace[i].peer.id != trace[j].peer.id && trace[i].depth <= trace[j].depth
  }

  /** The trace is a breadth-first traversal: each module once, in order of true distance. */
  ghost predicate BreadthFirst(m: Modules, roots: seq<ResolvedPeer>, trace: seq<Visit>) {
    && InOrder(trace)
    && forall i :: 0 <= i < |trace| ==> AtTrueDepth(m, roots, trace, trace[i].peer.id, trace[i].depth)
  }

  // ---------------------------------------------------------------- invariant of the search

  datatype Search = Search(
    queue: seq<ResolvedPeer>, visited: set<NodeId>, depth: nat, currDepthEnd: nat, nodesVisited: nat,
    explicit: Closure, st: State, trace: seq<Visit>)

  /** The true level of the `i`-th queued peer, as the two counters tell it. */
  ghost function LevelAt(s: Search, i: nat): nat {
    if i < s.currDepthEnd - s.nodesVisited then s.depth else s.depth + 1
  }

  ghost predicate SearchInv(m: Modules, roots: seq<ResolvedPeer>, s: Search) {
    && |s.trace| == s.nodesVisited <= s.currDepthEnd <= s.nodesVisited + |s.queue|
    && BreadthFirst(m, roots, s.trace)
    && SeenInv(m, roots, s)
    && (forall i :: 0 <= i < |s.trace| ==> s.trace[i].depth <= s.depth)
    && (forall i :: 0 <= i < |s.queue| ==> QueuedInv(m, roots, s, i))
  }

  ghost predicate QueuedInv(m: Modules, roots: seq<ResolvedPeer>, s: Search, i: nat)
    requires i < |s.queue|
  {
    AtTrueDepth(m, roots, s.trace, s.queue[i].id, LevelAt(s, i))
  }

  ghost predicate SeenInv(m: Modules, roots: seq<ResolvedPeer>, s: Search) {
    && DistinctIds(s.queue)
    && (forall i, j :: 0 <= i < |s.trace| && 0 <= j < |s.queue| ==> s.trace[i].peer.id != s.queue[j].id)
    && (forall i :: 0 <= i < |s.trace| ==> s.trace[i].peer.id in s.visited && Ids(Succ(m, s.trace[i])) <= s.visited)
    && (forall i :: 0 <= i < |s.queue| ==> s.queue[i].id in s.visited)
    && Ids(roots) <= s.visited <= m.direct.Keys
  }

  lemma InIds(peers: seq<ResolvedPeer>, peer: ResolvedPeer)
    requires peer in peers
    ensures peer.id in Ids(peers)
  {
    var k :| 0 <= k < |peers| && peers[k] == peer;
  }

  lemma StartInv(m: Modules, roots: seq<ResolvedPeer>, queue: seq<ResolvedPeer>)
    requires Ids(roots) <= m.direct.Keys && DistinctIds(queue)
    requires forall i :: 0 <= i < |queue| ==> queue[i] in roots
    ensures SearchInv(m, roots, Search(queue, Ids(roots), 0, 0, 0, EMPTY, State(map[], map[]), []))
  {
    var s := Search(queue, Ids(roots), 0, 0, 0, EMPTY, State(map[], map[]), []);
    forall i | 0 <= i < |s.queue|
      ensures s.queue[i].id in Ids(roots) && QueuedInv(m, roots, s, i)
    {
      InIds(roots, s.queue[i]);
    }
    assert SeenInv(m, roots, s);
    assert BreadthFirst(m, roots, []);
  }

  /** All of one level has been visited: what is queued is the next level. */
  lemma NextLevelInv(m: Modules, roots: seq<ResolvedPeer>, s: Search)
    requires SearchInv(m, roots, s) && s.nodesVisited == s.currDepthEnd
    ensures SearchInv(m, roots, s.(depth := s.depth + 1, currDepthEnd := s.currDepthEnd + |s.queue|))
  {
    var t := s.(depth := s.depth + 1, currDepthEnd := s.currDepthEnd + |s.queue|);
    forall i | 0 <= i < |t.queue|
      ensures QueuedInv(m, roots, t, i)
    {
      assert QueuedInv(m, roots, s, i);
      assert LevelAt(t, i) == LevelAt(s, i);
    }
  }

  /** How `t` follows from visiting the front of `s`, as far as order and depth are concerned. */
  ghost predicate Visits(m: Modules, s: Search, t: Search, v: Visit, added: seq<ResolvedPeer>)
    requires s.queue != []
  {
    && v.peer == s.queue[0] && v.depth == s.depth == t.depth
    && t.queue == s.queue[1..] + added && t.trace == s.trace + [v]
    && t.currDepthEnd == s.currDepthEnd && t.nodesVisited == s.nodesVisited + 1
    && s.visited + Ids(Succ(m, v)) <= t.visited <= m.direct.Keys
    && DistinctIds(added)
    && forall i :: 0 <= i < |added| ==> added[i].id !in s.visited && added[i].id in Ids(Succ(m, v))
  }

  lemma ReachedLonger(m: Modules, roots: seq<ResolvedPeer>, trace: seq<Visit>, v: Visit, id: NodeId, depth: nat)
    requires Reached(m, roots, trace, id, depth)
    ensures Reached(m, roots, trace + [v], id, depth)
  {
    if !(depth == 1 && id in Ids(roots)) {
      var j :| 0 <= j < |trace| && trace[j].depth + 1 == depth && id in Ids(Succ(m, trace[j]));
      assert (trace + [v])[j] == trace[j];
    }
  }

  lemma DepthLonger(m: Modules, roots: seq<ResolvedPeer>, trace: seq<Visit>, v: Visit, id: NodeId, depth: nat)
    requires AtTrueDepth(m, roots, trace, id, depth) && depth <= v.depth + 1
    ensures AtTrueDepth(m, roots, trace + [v], id, depth)
  {
    ReachedLonger(m, roots, trace, v, id, depth);
  }

  lemma InOrderLonger(trace: seq<Visit>, v: Visit)
    requires InOrder(trace)
    requires forall i :: 0 <= i < |trace| ==> trace[i].depth <= v.depth && trace[i].peer.id != v.peer.id
    ensures InOrder(trace + [v])
  {}

  lemma BreadthFirstLonger(m: Modules, roots: seq<ResolvedPeer>, trace: seq<Visit>, v: Visit)
    requires BreadthFirst(m, roots, trace) && AtTrueDepth(m, roots, trace, v.peer.id, v.depth)
    requires forall i :: 0 <= i < |trace| ==> trace[i].depth <= v.depth && trace[i].peer.id != v.peer.id
    ensures BreadthFirst(m, roots, trace + [v])
  {
    var longer := trace + [v];
    InOrderLonger(trace, v);
    forall i | 0 <= i < |longer|
      ensures AtTrueDepth(m, roots, longer, longer[i].peer.id, longer[i].depth)
    {
      TrueDepthLonger(m, roots, trace, v, longer[i]);
    }
  }

  lemma TrueDepthLonger(m: Modules, roots: seq<ResolvedPeer>, trace: seq<Visit>, v: Visit, u: Visit)
    requires AtTrueDepth(m, roots, trace, u.peer.id, u.depth) && u.depth <= v.depth
    ensures AtTrueDepth(m, roots, trace + [v], u.peer.id, u.depth)
  {
    DepthLonger(m, roots, trace, v, u.peer.id, u.depth);
  }

  /** A peer queued for the first time while `v` is visited is one level below `v`. */
  lemma FreshQueued(m: Modules, roots: seq<ResolvedPeer>, s: Search, v: Visit, id: NodeId)
    requires SeenInv(m, roots, s) && id !in s.visited && id in Ids(Succ(m, v))
    ensures AtTrueDepth(m, roots, s.trace + [v], id, v.depth + 1)
  {
    var longer := s.trace + [v];
    assert longer[|s.trace|] == v;
    assert forall j :: 0 <= j < |s.trace| ==> longer[j] == s.trace[j] && id !in Ids(Succ(m, s.trace[j]));
  }

  lemma QueuedKept(m: Modules, roots: seq<ResolvedPeer>, s: Search, t: Search, v: Visit, i: nat)
    requires 0 < |s.queue| && s.nodesVisited < s.currDepthEnd && i + 1 < |s.queue| && i < |t.queue|
    requires QueuedInv(m, roots, s, i + 1) && v.depth == s.depth == t.depth
    requires t.queue[i] == s.queue[i + 1] && t.trace == s.trace + [v]
    requires t.nodesVisited == s.nodesVisited + 1 && t.currDepthEnd == s.currDepthEnd
    ensures QueuedInv(m, roots, t, i)
  {
    DepthLonger(m, roots, s.trace, v, t.queue[i].id, LevelAt(t, i));
  }

  lemma VisitQueued(m: Modules, roots: seq<ResolvedPeer>, s: Search, t: Search, v: Visit, added: seq<ResolvedPeer>, i: nat)
    requires SearchInv(m, roots, s) && s.queue != [] && s.nodesVisited < s.currDepthEnd
    requires Visits(m, s, t, v, added) && i < |t.queue|
    ensures QueuedInv(m, roots, t, i)
  {
    if i < |s.queue| - 1 {
      QueuedKept(m, roots, s, t, v, i);
    } else {
      assert t.queue[i] == added[i - (|s.queue| - 1)];
      FreshQueued(m, roots, s, v, t.queue[i].id);
    }
  }

  lemma VisitInv(m: Modules, roots: seq<ResolvedPeer>, s: Search, t: Search, v: Visit, added: seq<ResolvedPeer>)
    requires SearchInv(m, roots, s) && s.queue != [] && s.nodesVisited < s.currDepthEnd
    requires Visits(m, s, t, v, added)
    ensures SearchInv(m, roots, t)
  {
    assert BreadthFirst(m, roots, t.trace) by {
      assert QueuedInv(m, roots, s, 0);
      BreadthFirstLonger(m, roots, s.trace, v);
    }
    assert SeenInv(m, roots, t) by { VisitSeen(m, roots, s, t, v, added); }
    forall i | 0 <= i < |t.queue|
      ensures QueuedInv(m, roots, t, i)
    {
      VisitQueued(m, roots, s, t, v, added, i);
    }
  }

  lemma VisitSeen(m: Modules, roots: seq<ResolvedPeer>, s: Search, t: Search, v: Visit, added: seq<ResolvedPeer>)
    requires SeenInv(m, roots, s) && s.queue != [] && Visits(m, s, t, v, added)
    ensures SeenInv(m, roots, t)
  {
    var rest := s.queue[1..];
    forall i, j | 0 <= i < j < |t.queue|
      ensures t.queue[i].id != t.queue[j].id
    {
      if i < |rest| { assert t.queue[i] == s.queue[i + 1]; } else { assert t.queue[i] == added[i - |rest|]; }
      if j < |rest| { assert t.queue[j] == s.queue[j + 1]; } else { assert t.queue[j] == added[j - |rest|]; }
    }
    forall j | 0 <= j < |t.queue|
      ensures t.queue[j].id in t.visited
      ensures forall i :: 0 <= i < |t.trace| ==> t.trace[i].peer.id != t.queue[j].id
    {
      if j < |rest| { assert t.queue[j] == s.queue[j + 1]; } else { assert t.queue[j] == added[j - |rest|]; }
    }
  }

  // ---------------------------------------------------------------- one step of the search

  datatype Problem = Problem(
    env: Env, rules: Rules, m: Modules, roots: seq<ResolvedPeer>, closure: Closure, excluded: NodeId -> bool)

  /** The problem is closed: all modules it mentions are finished. */
  ghost predicate Closed(p: Problem) {
    Complete(p.m) && Ids(p.roots) <= p.m.direct.Keys && forall d :: d in p.env.libIds ==> p.env.libIds[d] in p.m.direct
  }

  ghost predicate Known(m: Modules, st: State) {
    && (forall id :: id in st.accumulated ==> st.accumulated[id].peer.id in m.direct)
    && (forall lib :: lib in st.resolutions ==> st.resolutions[lib].choice.id in m.direct)
  }

  lemma AcceptedKnown(m: Modules, st: State, conflictId: NodeId, peer: ResolvedPeer, depth: nat)
    requires Known(m, st) && peer.id in m.direct
    ensures var (st', id) := Accepted(st, conflictId, peer, depth); Known(m, st') && id in m.direct
  {}

  lemma ChoiceKnown(m: Modules, st: State, lib: Dir, r: Record)
    requires Known(m, st) && r.choice.id in m.direct
    ensures Known(m, st.(resolutions := st.resolutions[lib := r]))
  {}

  lemma ResolvedKnown(p: Problem, st: State, cur: ResolvedPeer, depth: nat)
    requires Closed(p) && Known(p.m, st) && cur.id in p.m.direct
    ensures var (st', next) := Resolved(p.env, p.rules, st, cur, depth);
      Known(p.m, st') && (next.Some? ==> next.value in p.m.direct)
  {
    var (st', next) := Resolved(p.env, p.rules, st, cur, depth);
    if cur.kind == Unversioned {
      AcceptedKnown(p.m, st, cur.id, cur, depth);
    } else {
      var dir, lib := p.env.dirOf(cur.id), p.env.LibOf(cur.id);
      var r := st'.resolutions[lib];
      ChoiceKnown(p.m, st, lib, r);
      if lib !in st.resolutions {
        AcceptedKnown(p.m, st.(resolutions := st.resolutions[lib := r]), cur.id, r.choice, depth);
      }
    }
  }

  ghost predicate Inv(p: Problem, s: Search) {
    Closed(p) && SearchInv(p.m, p.roots, s) && Known(p.m, s.st) && Listed(s.explicit)
  }

  function NextLevel(s: Search): Search {
    if s.nodesVisited == s.currDepthEnd
    then s.(depth := s.depth + 1, currDepthEnd := s.currDepthEnd + |s.queue|) else s
  }

  ghost predicate IsReplaced(v: Visit) { v.next.Some? && v.next.value != v.peer.id }

  /** The closure a replacement brings in. */
  ghost function Brought(p: Problem, id: NodeId): (c: Closure)
    requires Complete(p.m) && id in p.m.direct
    ensures Listed(c)
  {
    assert ModuleComplete(p.m, id);
    Excluding(p.m.closures[id], p.excluded, p.m.closures)
  }

  ghost function Explicit(p: Problem, explicit: Closure, v: Visit): (c: Closure)
    requires Complete(p.m) && (v.next.Some? ==> v.next.value in p.m.direct) && Listed(explicit)
    ensures Listed(c)
  {
    if !IsReplaced(v) then explicit
    else
      MergedListed(explicit, v.next.value, Brought(p, v.next.value), 1);
      Merged(explicit, v.next.value, Brought(p, v.next.value), 1)
  }

  function Admits(p: Problem, explicit: Closure): NodeId -> bool {
    (id: NodeId) => p.closure.Contains(id) || explicit.Contains(id)
  }

  /** A replacement counts as visited. */
  function Seen(visited: set<NodeId>, v: Visit): set<NodeId> {
    visited + (if v.next.Some? then {v.next.value} else {})
  }

  /** Resolving the front of the queue and queueing the peers of what it resolves to. */
  ghost function VisitFront(p: Problem, s: Search): Search
    requires Inv(p, s) && s.queue != []
  {
    var (st, next) := Resolved(p.env, p.rules, s.st, s.queue[0], s.depth);
    var v := Visit(s.queue[0], next, s.depth);
    assert next.Some? ==> next.value in p.m.direct by { ResolvedKnown(p, s.st, s.queue[0], s.depth); }
    var explicit := Explicit(p, s.explicit, v);
    var visited := Seen(s.visited, v);
    Search(s.queue[1..] + Fresh(Succ(p.m, v), visited, Admits(p, explicit)), visited + Ids(Succ(p.m, v)),
           s.depth, s.currDepthEnd, s.nodesVisited + 1, explicit, st, s.trace + [v])
  }

  lemma FreshAdded(peers: seq<ResolvedPeer>, visited: set<NodeId>, admits: NodeId -> bool, i: nat)
    requires i < |Fresh(peers, visited, admits)|
    ensures var f := Fresh(peers, visited, admits); f[i].id !in visited && f[i].id in Ids(peers) && admits(f[i].id)
  {
    FreshProperties(peers, visited, admits);
    InIds(peers, Fresh(peers, visited, admits)[i]);
  }

  lemma VisitFrontInv(p: Problem, s: Search)
    requires Inv(p, s) && s.queue != [] && s.nodesVisited < s.currDepthEnd
    ensures Inv(p, VisitFront(p, s))
  {
    var (_, next) := Resolved(p.env, p.rules, s.st, s.queue[0], s.depth);
    var v, t := Visit(s.queue[0], next, s.depth), VisitFront(p, s);
    ResolvedKnown(p, s.st, s.queue[0], s.depth);
    var visited := Seen(s.visited, v);
    var added := Fresh(Succ(p.m, v), visited, Admits(p, t.explicit));
    assert Visits(p.m, s, t, v, added) by {
      assert next.Some? ==> ModuleComplete(p.m, next.value);
      FreshProperties(Succ(p.m, v), visited, Admits(p, t.explicit));
      forall i | 0 <= i < |added|
        ensures added[i].id !in s.visited && added[i].id in Ids(Succ(p.m, v))
      {
        FreshAdded(Succ(p.m, v), visited, Admits(p, t.explicit), i);
      }
    }
    VisitInv(p.m, p.roots, s, t, v, added);
  }

  ghost function Step(p: Problem, s: Search): Search
    requires Inv(p, s) && s.queue != []
  {
    assert Inv(p, NextLevel(s)) by { NextLevelKeeps(p, s); }
    VisitFront(p, NextLevel(s))
  }

  lemma NextLevelKeeps(p: Problem, s: Search)
    requires Inv(p, s)
    ensures Inv(p, NextLevel(s))
  {
    if s.nodesVisited == s.currDepthEnd { NextLevelInv(p.m, p.roots, s); }
  }

  lemma StepInv(p: Problem, s: Search)
    requires Inv(p, s) && s.queue != []
    ensures Inv(p, Step(p, s))
  {
    NextLevelKeeps(p, s);
    VisitFrontInv(p, NextLevel(s));
  }

  /** Each module is visited once, so the search is bounded by their number. */
  lemma {:induction false} TraceBound(trace: seq<Visit>, ids: set<NodeId>)
    requires InOrder(trace) && forall i :: 0 <= i < |trace| ==> trace[i].peer.id in ids
    ensures |trace| <= |ids|
  {
    if trace != [] {
      var n := |trace| - 1;
      TraceBound(trace[..n], ids - {trace[n].peer.id});
    }
  }

  lemma InvBound(p: Problem, s: Search)
    requires Inv(p, s)
    ensures s.nodesVisited <= |p.m.direct.Keys|
  {
    TraceBound(s.trace, p.m.direct.Keys);
  }
}
