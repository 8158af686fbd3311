/** The whole breadth-first run of conflict resolution and what it guarantees. */
module ConflictResolution {
  import opened Wrappers
  import opened ModuleGraph
  import opened PeersClosures
  import opened DependencyRules
  import opened ConflictResolver
  import opened ConflictSearch

  ghost function Start(p: Problem): (s: Search)
    requires Closed(p)
    ensures Inv(p, s)
  {
    var queue := Fresh(p.roots, {}, Admits(p, EMPTY));
    FreshProperties(p.roots, {}, Admits(p, EMPTY));
    StartInv(p.m, p.roots, queue);
    Search(queue, Ids(p.roots), 0, 0, 0, EMPTY, State(map[], map[]), [])
  }

  /** The state in which the queue is empty. */
  ghost function Run(p: Problem, s: Search): Search
    requires Inv(p, s)
    decreases |p.m.direct.Keys| - s.nodesVisited
  {
    if s.queue == [] then s
    else
      StepInv(p, s);
      InvBound(p, Step(p, s));
      Run(p, Step(p, s))
  }

  ghost function Final(p: Problem): Search
    requires Closed(p)
  {
    Run(p, Start(p))
  }

  // ---------------------------------------------------------------- the program

  /** Brings the closure of a replacement into the closure of explicit resolutions. */
  method AddReplacement(p: Problem, explicit: PeersClosure, id: NodeId)
    requires Complete(p.m) && id in p.m.direct && Listed(explicit.Value())
    modifies explicit
    ensures explicit.Value() == Merged(old(explicit.Value()), id, Brought(p, id), 1)
    ensures Listed(explicit.Value())
  {
    assert ModuleComplete(p.m, id);
    var target := new PeersClosure.Of(p.m.closures[id]);
    var resolveClosure := target.Exclude(p.excluded, p.m.closures);
    explicit.Merge(id, resolveClosure, 1);
  }

  /** Resolves one peer; `visited'` and the explicit closure account for a replacement. */
  method ResolveNext(p: Problem, resolver: Resolver, explicit: PeersClosure, cur: ResolvedPeer, visited: set<NodeId>, depth: nat)
    returns (resolved: Option<NodeId>, visited': set<NodeId>)
    requires Complete(p.m) && Listed(explicit.Value()) && cur.id in visited
    requires resolver.env == p.env && resolver.rules == p.rules
    requires NextKnown(p, resolver.Value(), cur, depth)
    modifies resolver, explicit
    ensures (resolver.Value(), resolved) == Resolved(p.env, p.rules, old(resolver.Value()), cur, depth)
    ensures explicit.Value() == Explicit(p, old(explicit.Value()), Visit(cur, resolved, depth))
    ensures visited' == Seen(visited, Visit(cur, resolved, depth))
  {
    resolved := resolver.Resolve(cur, depth);
    visited' := visited;
    if resolved != Some(cur.id) && resolved.Some? {
      visited' := visited + {resolved.value};
      AddReplacement(p, explicit, resolved.value);
    }
  }

  /** The body of the search loop once the level is settled: resolve the front, queue the peers of
      what it resolves to, drop the front. */
  method VisitNext(p: Problem, resolver: Resolver, explicit: PeersClosure, queue: seq<ResolvedPeer>, visited: set<NodeId>, depth: nat)
    returns (queue': seq<ResolvedPeer>, visited': set<NodeId>, ghost v: Visit)
    requires Complete(p.m) && Listed(explicit.Value()) && queue != [] && queue[0].id in visited
    requires resolver.env == p.env && resolver.rules == p.rules
    requires NextKnown(p, resolver.Value(), queue[0], depth)
    modifies resolver, explicit
    ensures v.peer == queue[0] && v.depth == depth
    ensures (resolver.Value(), v.next) == Resolved(p.env, p.rules, old(resolver.Value()), queue[0], depth)
    ensures explicit.Value() == Explicit(p, old(explicit.Value()), v)
    ensures queue' == queue[1..] + Fresh(Succ(p.m, v), Seen(visited, v), Admits(p, explicit.Value()))
    ensures visited' == Seen(visited, v) + Ids(Succ(p.m, v))
  {
    var resolved, seen := ResolveNext(p, resolver, explicit, queue[0], visited, depth);
    v := Visit(queue[0], resolved, depth);
    var direct := if resolved.Some? then p.m.direct[resolved.value] else [];
    visited', queue' := EnqueDeps(direct, seen, queue, Admits(p, Closure(explicit.stats, explicit.topSort)));
    DropFront(queue, Fresh(direct, seen, Admits(p, explicit.Value())));
    queue' := queue'[1..];
  }

  lemma DropFront(queue: seq<ResolvedPeer>, added: seq<ResolvedPeer>)
    requires queue != []
    ensures (queue + added)[1..] == queue[1..] + added
  {}

  /** What is resolved to is a finished module. */
  ghost predicate NextKnown(p: Problem, st: State, cur: ResolvedPeer, depth: nat) {
    var next := Resolved(p.env, p.rules, st, cur, depth).1;
    next.Some? ==> next.value in p.m.direct
  }

  /** `t` follows from `s` at the given level by visit `v`. */
  ghost predicate Follows(p: Problem, s: Search, depth: nat, v: Visit, t: Search)
    requires Complete(p.m) && Listed(s.explicit) && s.queue != [] && NextKnown(p, s.st, s.queue[0], depth)
  {
    && v.peer == s.queue[0] && v.depth == depth
    && (t.st, v.next) == Resolved(p.env, p.rules, s.st, s.queue[0], depth)
    && t.explicit == Explicit(p, s.explicit, v)
    && t.queue == s.queue[1..] + Fresh(Succ(p.m, v), Seen(s.visited, v), Admits(p, t.explicit))
    && t.visited == Seen(s.visited, v) + Ids(Succ(p.m, v))
  }

  lemma FrontKnown(p: Problem, s: Search)
    requires Inv(p, s) && s.queue != []
    ensures Complete(p.m) && Listed(s.explicit) && s.queue[0].id in s.visited && NextKnown(p, s.st, s.queue[0], s.depth)
  {
    ResolvedKnown(p, s.st, s.queue[0], s.depth);
  }

  lemma FrontFollows(p: Problem, s: Search)
    requires Inv(p, s) && s.queue != []
    ensures Complete(p.m) && Listed(s.explicit) && s.queue[0].id in s.visited && NextKnown(p, s.st, s.queue[0], s.depth)
    ensures var t := VisitFront(p, s);
      && Follows(p, s, s.depth, t.trace[|s.trace|], t) && t.depth == s.depth && t.currDepthEnd == s.currDepthEnd
      && t.trace == s.trace + [t.trace[|s.trace|]]
  {
    FrontKnown(p, s);
  }

  lemma RunStep(p: Problem, s: Search) returns (n: Search, t: Search)
    requires Inv(p, s) && s.queue != []
    ensures n == NextLevel(s) && Inv(p, n) && n.queue == s.queue && n.visited == s.visited
    ensures n.explicit == s.explicit && n.st == s.st
    ensures t == VisitFront(p, n) && Inv(p, t) && Run(p, t) == Run(p, s)
    ensures t.nodesVisited == s.nodesVisited + 1 <= |p.m.direct.Keys|
  {
    n, t := NextLevel(s), Step(p, s);
    NextLevelKeeps(p, s);
    StepInv(p, s);
    InvBound(p, t);
  }

  /** What one turn of the loop has to do. */
  lemma Turn(p: Problem, s: Search) returns (v: Visit, t: Search)
    requires Inv(p, s) && s.queue != []
    ensures Complete(p.m) && Listed(s.explicit) && s.queue[0].id in s.visited
    ensures NextKnown(p, s.st, s.queue[0], NextLevel(s).depth) && Follows(p, s, NextLevel(s).depth, v, t)
    ensures t.depth == NextLevel(s).depth && t.currDepthEnd == NextLevel(s).currDepthEnd
    ensures t.nodesVisited == s.nodesVisited + 1 <= |p.m.direct.Keys| && t.trace == s.trace + [v]
    ensures Inv(p, t) && Run(p, t) == Run(p, s)
  {
    var n;
    n, t := RunStep(p, s);
    v := t.trace[|n.trace|];
    FrontFollows(p, n);
  }

  lemma NoRoots(p: Problem)
    requires Closed(p) && p.roots == []
    ensures Final(p).st.accumulated == map[]
  {}

  /** One turn of the search loop. */
  method Advance(p: Problem, ghost s: Search, resolver: Resolver, explicit: PeersClosure,
      queue: seq<ResolvedPeer>, visited: set<NodeId>, depth: nat, currDepthEnd: nat, nodesVisited: nat)
    returns (queue': seq<ResolvedPeer>, visited': set<NodeId>, depth': nat, currDepthEnd': nat, ghost t: Search)
    requires Inv(p, s) && queue == s.queue != [] && visited == s.visited && depth == s.depth
    requires currDepthEnd == s.currDepthEnd && nodesVisited == s.nodesVisited
    requires resolver.env == p.env && resolver.rules == p.rules
    requires explicit.Value() == s.explicit && resolver.Value() == s.st
    modifies resolver, explicit
    ensures Inv(p, t) && Run(p, t) == Run(p, s) && t.nodesVisited == s.nodesVisited + 1 <= |p.m.direct.Keys|
    ensures queue' == t.queue && visited' == t.visited && depth' == t.depth && currDepthEnd' == t.currDepthEnd
    ensures explicit.Value() == t.explicit && resolver.Value() == t.st
  {
    ghost var v, w;
    v, t := Turn(p, s);
    depth', currDepthEnd' := depth, currDepthEnd;
    if nodesVisited == currDepthEnd {
      depth' := depth + 1;
      currDepthEnd' := currDepthEnd + |queue|;
    }
    assert depth' == NextLevel(s).depth && currDepthEnd' == NextLevel(s).currDepthEnd;
    ghost var next := Resolved(p.env, p.rules, s.st, s.queue[0], depth').1;
    assert v == Visit(s.queue[0], next, depth');
    assert next.Some? ==> next.value in p.m.direct;
    queue', visited', w := VisitNext(p, resolver, explicit, queue, visited, depth');
    assert w == Visit(s.queue[0], next, depth');
  }

  lemma Begin(p: Problem) returns (s: Search)
    requires Closed(p)
    ensures Inv(p, s) && Run(p, s) == Final(p)
    ensures s.queue == Fresh(p.roots, {}, Admits(p, EMPTY)) && s.visited == Ids(p.roots)
    ensures s.depth == s.currDepthEnd == s.nodesVisited == 0 && s.explicit == EMPTY && s.st == State(map[], map[])
  {
    s := Start(p);
  }

  lemma Done(p: Problem, s: Search)
    requires Inv(p, s) && s.queue == []
    ensures Run(p, s) == s
  {}

  method ResolveConflicts(p: Problem) returns (accumulated: map<NodeId, ResolutionInfo>)
    requires Closed(p)
    ensures accumulated == Final(p).st.accumulated
  {
    if p.roots == [] {
      NoRoots(p);
      return map[];
    }
    var resolver := new Resolver(p.env, p.rules);
    var explicit := new PeersClosure();
    var visited, queue := EnqueDeps(p.roots, {}, [], Admits(p, Closure(explicit.stats, explicit.topSort)));
    ghost var s := Begin(p);
    RunSearch(p, s, resolver, explicit, queue, visited);
    accumulated := resolver.accumulated;
  }

  /** The search loop. */
  method RunSearch(p: Problem, ghost start: Search, resolver: Resolver, explicit: PeersClosure, queue0: seq<ResolvedPeer>, visited0: set<NodeId>)
    requires Inv(p, start) && queue0 == start.queue && visited0 == start.visited
    requires start.depth == start.currDepthEnd == start.nodesVisited == 0
    requires resolver.env == p.env && resolver.rules == p.rules
    requires explicit.Value() == start.explicit && resolver.Value() == start.st
    modifies resolver, explicit
    ensures resolver.Value() == Run(p, start).st
  {
    var queue, visited := queue0, visited0;
    var depth, currDepthEnd, nodesVisited := 0, 0, 0;
    ghost var s := start;
    while queue != []
      invariant Inv(p, s) && Run(p, s) == Run(p, start)
      invariant queue == s.queue && visited == s.visited && depth == s.depth
      invariant currDepthEnd == s.currDepthEnd && nodesVisited == s.nodesVisited
      invariant explicit.Value() == s.explicit && resolver.Value() == s.st
      decreases |p.m.direct.Keys| - nodesVisited
    {
      queue, visited, depth, currDepthEnd, s := Advance(p, s, resolver, explicit, queue, visited, depth, currDepthEnd, nodesVisited);
      nodesVisited := nodesVisited + 1;
    }
    Done(p, s);
  }
}
