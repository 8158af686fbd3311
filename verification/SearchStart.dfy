/** How a search with two direct peers starts, and what the rest of it leaves alone. */
module SearchStart {
  import opened Wrappers
  import opened ModuleGraph
  import opened PeersClosures
  import opened DependencyRules
  import opened ConflictResolver
  import opened ConflictSearch
  import opened ConflictResolution

  // ---------------------------------------------------------------- what is done stays done

  lemma ResolvedKeeps(env: Env, rules: Rules, st: State, cur: ResolvedPeer, depth: nat, x: NodeId)
    requires x in st.accumulated
    ensures var st' := Resolved(env, rules, st, cur, depth).0;
      x in st'.accumulated && st'.accumulated[x] == st.accumulated[x]
  {}

  lemma {:induction false} RunKeeps(p: Problem, s: Search, x: NodeId)
    requires Inv(p, s) && x in s.st.accumulated
    ensures x in Run(p, s).st.accumulated && Run(p, s).st.accumulated[x] == s.st.accumulated[x]
    decreases |p.m.direct.Keys| - s.nodesVisited
  {
    if s.queue != [] {
      var v, t := Turn(p, s);
      ResolvedKeeps(p.env, p.rules, s.st, s.queue[0], NextLevel(s).depth, x);
      RunKeeps(p, t, x);
    }
  }

  lemma {:induction false} RunKeepsTrace(p: Problem, s: Search)
    requires Inv(p, s)
    ensures s.trace <= Run(p, s).trace
    decreases |p.m.direct.Keys| - s.nodesVisited
  {
    if s.queue != [] {
      var v, t := Turn(p, s);
      RunKeepsTrace(p, t);
    }
  }

  // ---------------------------------------------------------------- two direct peers

  ghost predicate TwoRoots(p: Problem) {
    && |p.roots| == 2 && p.roots[0].id != p.roots[1].id
    && p.closure.Contains(p.roots[0].id) && p.closure.Contains(p.roots[1].id)
  }

  lemma BothQueued(p: Problem)
    requires TwoRoots(p)
    ensures Fresh(p.roots, {}, Admits(p, EMPTY)) == p.roots
  {
    var rest := p.roots[1..];
    assert rest == [p.roots[1]] && rest[1..] == [];
    assert Fresh(rest, {} + {p.roots[0].id}, Admits(p, EMPTY))
      == [p.roots[1]] + Fresh([], {} + {p.roots[0].id} + {p.roots[1].id}, Admits(p, EMPTY));
    assert p.roots == [p.roots[0]] + rest;
  }

  ghost function FirstResolved(p: Problem): (State, Option<NodeId>)
    requires TwoRoots(p)
  {
    Resolved(p.env, p.rules, State(map[], map[]), p.roots[0], 1)
  }

  ghost function SecondResolved(p: Problem): (State, Option<NodeId>)
    requires TwoRoots(p)
  {
    Resolved(p.env, p.rules, FirstResolved(p).0, p.roots[1], 1)
  }

  lemma FirstTurn(p: Problem) returns (a: Search)
    requires Closed(p) && TwoRoots(p)
    ensures Inv(p, a) && Run(p, a) == Final(p)
    ensures a.queue != [] && a.queue[0] == p.roots[1] && NextLevel(a).depth == 1
    ensures a.st == FirstResolved(p).0 && a.trace == [Visit(p.roots[0], FirstResolved(p).1, 1)]
  {
    var s := Begin(p);
    BothQueued(p);
    var v;
    v, a := Turn(p, s);
    assert s.queue[1..][0] == p.roots[1];
  }

  /** The two direct peers are visited first, both at depth 1. */
  lemma SecondTurn(p: Problem) returns (b: Search)
    requires Closed(p) && TwoRoots(p)
    ensures Inv(p, b) && Run(p, b) == Final(p) && b.st == SecondResolved(p).0
    ensures b.trace == [Visit(p.roots[0], FirstResolved(p).1, 1), Visit(p.roots[1], SecondResolved(p).1, 1)]
  {
    var a := FirstTurn(p);
    var v;
    v, b := Turn(p, a);
  }
}
