/** What a finished run of conflict resolution guarantees. */
module ConflictTheory {
  import opened Wrappers
  import opened ModuleGraph
  import opened PeersClosures
  import opened DependencyRules
  import opened ConflictResolver
  import opened ConflictSearch
  import opened ConflictResolution
  import opened PreorderSort

  // ---------------------------------------------------------------- the nearest version decides

  /** The first versioned visit in a library. */
  ghost predicate FirstOfLibrary(env: Env, trace: seq<Visit>, lib: Dir, k: int) {
    && 0 <= k < |trace| && trace[k].peer.kind != Unversioned && env.LibOf(trace[k].peer.id) == lib
    && forall j :: 0 <= j < k && trace[j].peer.kind != Unversioned ==> env.LibOf(trace[j].peer.id) != lib
  }

  /** Without a rule, the first version met is the one chosen. */
  ghost predicate FirstChosen(env: Env, trace: seq<Visit>, lib: Dir, choice: ResolvedPeer, k: int) {
    FirstOfLibrary(env, trace, lib, k) && (choice.kind != Managed ==> choice.id == trace[k].peer.id)
  }

  ghost predicate FirstDecides(env: Env, trace: seq<Visit>, resolutions: map<Dir, Record>) {
    && (forall lib :: lib in resolutions ==> exists k :: FirstChosen(env, trace, lib, resolutions[lib].choice, k))
    && (forall j :: 0 <= j < |trace| && trace[j].peer.kind != Unversioned ==> env.LibOf(trace[j].peer.id) in resolutions)
  }

  /** What resolving `cur` does to the table of choices: at most its own library is added, and
      unless a rule applies it is chosen itself. */
  ghost predicate OneMoreChoice(env: Env, was: map<Dir, Record>, now: map<Dir, Record>, cur: ResolvedPeer) {
    var lib := env.LibOf(cur.id);
    && now.Keys == was.Keys + (if cur.kind == Unversioned then {} else {lib})
    && (forall l :: l in was ==> now[l].choice == was[l].choice)
    && (cur.kind != Unversioned && lib !in was && now[lib].choice.kind != Managed ==> now[lib].choice.id == cur.id)
  }

  lemma ResolvedRecords(env: Env, rules: Rules, st: State, cur: ResolvedPeer, depth: nat)
    ensures OneMoreChoice(env, st.resolutions, Resolved(env, rules, st, cur, depth).0.resolutions, cur)
  {}

  lemma FirstChosenLonger(env: Env, trace: seq<Visit>, v: Visit, lib: Dir, choice: ResolvedPeer, k: int)
    requires FirstChosen(env, trace, lib, choice, k)
    ensures FirstChosen(env, trace + [v], lib, choice, k)
  {
    assert forall j :: 0 <= j <= k ==> (trace + [v])[j] == trace[j];
  }

  lemma FirstDecidesStep(env: Env, was: map<Dir, Record>, now: map<Dir, Record>, trace: seq<Visit>, v: Visit)
    requires FirstDecides(env, trace, was) && OneMoreChoice(env, was, now, v.peer)
    ensures FirstDecides(env, trace + [v], now)
  {
    forall lib | lib in now
      ensures exists k :: FirstChosen(env, trace + [v], lib, now[lib].choice, k)
    {
      if lib in was {
        var k :| FirstChosen(env, trace, lib, was[lib].choice, k);
        FirstChosenLonger(env, trace, v, lib, now[lib].choice, k);
      } else {
        assert FirstChosen(env, trace + [v], lib, now[lib].choice, |trace|);
      }
    }
  }

  // ---------------------------------------------------------------- what is visited

  ghost predicate Brings(p: Problem, v: Visit, u: NodeId)
    requires Complete(p.m)
  {
    IsReplaced(v) && v.next.value in p.m.direct && (u == v.next.value || Brought(p, v.next.value).Contains(u))
  }

  /** Some replacement on the way brought `u` in. */
  ghost predicate BroughtIn(p: Problem, trace: seq<Visit>, u: NodeId)
    requires Complete(p.m)
  {
    exists j :: 0 <= j < |trace| && Brings(p, trace[j], u)
  }

  ghost predicate Admitted(p: Problem, trace: seq<Visit>, u: NodeId)
    requires Complete(p.m)
  {
    p.closure.Contains(u) || BroughtIn(p, trace, u)
  }

  /** The closure of explicit resolutions holds exactly what replacements brought in. */
  ghost predicate ExplicitExact(p: Problem, s: Search)
    requires Complete(p.m)
  {
    forall u :: s.explicit.Contains(u) <==> BroughtIn(p, s.trace, u)
  }

  lemma BroughtLonger(p: Problem, trace: seq<Visit>, v: Visit, u: NodeId)
    requires Complete(p.m)
    ensures BroughtIn(p, trace + [v], u) <==> BroughtIn(p, trace, u) || Brings(p, v, u)
  {
    var longer := trace + [v];
    if BroughtIn(p, trace, u) {
      var j :| 0 <= j < |trace| && Brings(p, trace[j], u);
      assert longer[j] == trace[j];
    }
    assert longer[|trace|] == v;
  }

  lemma ExplicitContains(p: Problem, explicit: Closure, v: Visit, u: NodeId)
    requires Complete(p.m) && (v.next.Some? ==> v.next.value in p.m.direct) && Listed(explicit)
    ensures Explicit(p, explicit, v).Contains(u) <==> explicit.Contains(u) || Brings(p, v, u)
  {
    if IsReplaced(v) {
      MergedContains(explicit, v.next.value, Brought(p, v.next.value), 1, u);
    }
  }

  lemma ExplicitStep(p: Problem, s: Search)
    requires Inv(p, s) && s.queue != [] && ExplicitExact(p, s)
    ensures ExplicitExact(p, VisitFront(p, s))
  {
    var t := VisitFront(p, s);
    var v := t.trace[|s.trace|];
    ResolvedKnown(p, s.st, s.queue[0], s.depth);
    forall u
      ensures t.explicit.Contains(u) <==> BroughtIn(p, t.trace, u)
    {
      BroughtLonger(p, s.trace, v, u);
      ExplicitContains(p, s.explicit, v, u);
    }
  }

  // ---------------------------------------------------------------- what is met

  ghost predicate MetBy(p: Problem, v: Visit, x: NodeId) {
    x in Ids(Succ(p.m, v)) || v.next == Some(x)
  }

  ghost predicate SomeMet(p: Problem, trace: seq<Visit>, x: NodeId) {
    x in Ids(p.roots) || exists j :: 0 <= j < |trace| && MetBy(p, trace[j], x)
  }

  lemma SomeMetLonger(p: Problem, trace: seq<Visit>, v: Visit, x: NodeId)
    ensures SomeMet(p, trace + [v], x) <==> SomeMet(p, trace, x) || MetBy(p, v, x)
  {
    var longer := trace + [v];
    assert longer[|trace|] == v;
    if j :| 0 <= j < |trace| && MetBy(p, trace[j], x) {
      assert longer[j] == trace[j];
    }
  }

  /** What counts as visited are the peers met, queued or not, and the replacements. */
  ghost predicate VisitedExact(p: Problem, s: Search) {
    forall x :: x in s.visited <==> SomeMet(p, s.trace, x)
  }

  lemma VisitedStep(p: Problem, s: Search)
    requires Inv(p, s) && s.queue != [] && VisitedExact(p, s)
    ensures VisitedExact(p, VisitFront(p, s))
  {
    var t := VisitFront(p, s);
    var v := t.trace[|s.trace|];
    forall x
      ensures x in t.visited <==> SomeMet(p, t.trace, x)
    {
      SomeMetLonger(p, s.trace, v, x);
      assert x in t.visited <==> x in s.visited || v.next == Some(x) || x in Ids(Succ(p.m, v));
    }
  }

  // ---------------------------------------------------------------- who is visited

  /** `x` is first met at visit `k`: no root, no peer of an earlier visit, no replacement so far. */
  ghost predicate NewAt(p: Problem, trace: seq<Visit>, k: nat, x: NodeId)
    requires k < |trace|
  {
    x in Ids(Succ(p.m, trace[k])) && trace[k].next != Some(x) && !SomeMet(p, trace[..k], x)
  }

  /** `x` is first met at visit `k`, and the closures admit it by then. */
  ghost predicate MetAt(p: Problem, trace: seq<Visit>, k: nat, x: NodeId)
    requires Complete(p.m) && k < |trace|
  {
    NewAt(p, trace, k, x) && Admitted(p, trace[..k + 1], x)
  }

  /** `x` has to be visited: a root that the closure admits, or admitted by the time it is first met. */
  ghost predicate Due(p: Problem, trace: seq<Visit>, x: NodeId)
    requires Complete(p.m)
  {
    || (x in Ids(p.roots) && p.closure.Contains(x))
    || exists k :: 0 <= k < |trace| && MetAt(p, trace, k, x)
  }

  lemma DueLonger(p: Problem, trace: seq<Visit>, v: Visit, x: NodeId)
    requires Complete(p.m)
    ensures Due(p, trace + [v], x) <==> Due(p, trace, x) || MetAt(p, trace + [v], |trace|, x)
  {
    var longer := trace + [v];
    forall k | 0 <= k < |trace|
      ensures MetAt(p, longer, k, x) <==> MetAt(p, trace, k, x)
    {
      assert longer[k] == trace[k] && longer[..k] == trace[..k] && longer[..k + 1] == trace[..k + 1];
    }
    if k :| 0 <= k < |trace| && MetAt(p, trace, k, x) {
      assert MetAt(p, longer, k, x);
    }
  }

  /** Visited, or queued to be. */
  ghost predicate Enlisted(s: Search, x: NodeId) {
    (exists i :: 0 <= i < |s.trace| && s.trace[i].peer.id == x) || HasId(s.queue, x)
  }

  ghost predicate HasId(peers: seq<ResolvedPeer>, x: NodeId) {
    exists i :: 0 <= i < |peers| && peers[i].id == x
  }

  /** The right peers are enlisted, and no others. */
  ghost predicate EnlistedExact(p: Problem, s: Search)
    requires Complete(p.m)
  {
    forall x :: Enlisted(s, x) <==> Due(p, s.trace, x)
  }

  lemma {:induction false} FreshComplete(peers: seq<ResolvedPeer>, visited: set<NodeId>, admits: NodeId -> bool, x: NodeId)
    requires x in Ids(peers) && x !in visited && admits(x)
    ensures exists i :: 0 <= i < |Fresh(peers, visited, admits)| && Fresh(peers, visited, admits)[i].id == x
    decreases peers
  {
    var f, rest := Fresh(peers, visited, admits), Fresh(peers[1..], visited + {peers[0].id}, admits);
    if peers[0].id == x {
      assert f[0].id == x;
    } else {
      IdsFirst(peers);
      FreshComplete(peers[1..], visited + {peers[0].id}, admits, x);
      var i :| 0 <= i < |rest| && rest[i].id == x;
      if peers[0].id in visited || !admits(peers[0].id) {
        assert f[i].id == x;
      } else {
        assert f[i + 1].id == x;
      }
    }
  }

  lemma FreshExact(peers: seq<ResolvedPeer>, visited: set<NodeId>, admits: NodeId -> bool, x: NodeId)
    ensures HasId(Fresh(peers, visited, admits), x) <==> x in Ids(peers) && x !in visited && admits(x)
  {
    if x in Ids(peers) && x !in visited && admits(x) { FreshComplete(peers, visited, admits, x); }
    if i :| 0 <= i < |Fresh(peers, visited, admits)| && Fresh(peers, visited, admits)[i].id == x {
      FreshAdded(peers, visited, admits, i);
    }
  }

  lemma EnlistedNext(s: Search, t: Search, v: Visit, added: seq<ResolvedPeer>, x: NodeId)
    requires s.queue != [] && v.peer == s.queue[0] && t.trace == s.trace + [v] && t.queue == s.queue[1..] + added
    ensures Enlisted(t, x) <==> Enlisted(s, x) || HasId(added, x)
  {
    var n, m := |s.trace|, |s.queue| - 1;
    assert t.trace[n] == v;
    if i :| 0 <= i < n && s.trace[i].peer.id == x { assert t.trace[i].peer.id == x; }
    if i :| 0 <= i < |s.queue| && s.queue[i].id == x {
      if i > 0 { assert t.queue[i - 1].id == x; }
    }
    if i :| 0 <= i < |added| && added[i].id == x { assert t.queue[m + i].id == x; }
    if i :| 0 <= i < |t.queue| && t.queue[i].id == x {
      if i < m { assert s.queue[i + 1].id == x; } else { assert added[i - m].id == x; }
    }
  }

  lemma EnlistedStep(p: Problem, s: Search)
    requires Inv(p, s) && s.queue != [] && ExplicitExact(p, s) && VisitedExact(p, s) && EnlistedExact(p, s)
    ensures EnlistedExact(p, VisitFront(p, s))
  {
    var t := VisitFront(p, s);
    var v := t.trace[|s.trace|];
    var added := Fresh(Succ(p.m, v), Seen(s.visited, v), Admits(p, t.explicit));
    ExplicitStep(p, s);
    forall x
      ensures Enlisted(t, x) <==> Due(p, t.trace, x)
    {
      EnlistedNext(s, t, v, added, x);
      DueLonger(p, s.trace, v, x);
      FreshExact(Succ(p.m, v), Seen(s.visited, v), Admits(p, t.explicit), x);
      assert t.trace[..|s.trace| + 1] == t.trace && t.trace[..|s.trace|] == s.trace;
    }
  }

  // ---------------------------------------------------------------- the whole run

  /** What holds throughout the search, whatever the rules are. */
  ghost predicate Sound(p: Problem, s: Search)
    requires Complete(p.m)
  {
    && FirstDecides(p.env, s.trace, s.st.resolutions)
    && ExplicitExact(p, s) && VisitedExact(p, s) && EnlistedExact(p, s)
  }

  lemma FirstDecidesVisit(p: Problem, s: Search)
    requires Inv(p, s) && s.queue != [] && FirstDecides(p.env, s.trace, s.st.resolutions)
    ensures var t := VisitFront(p, s); FirstDecides(p.env, t.trace, t.st.resolutions)
  {
    var t := VisitFront(p, s);
    ResolvedRecords(p.env, p.rules, s.st, s.queue[0], s.depth);
    FirstDecidesStep(p.env, s.st.resolutions, t.st.resolutions, s.trace, t.trace[|s.trace|]);
  }

  /** Two states that differ at most in their counters. */
  ghost predicate SameButCounters(s: Search, t: Search) {
    t.trace == s.trace && t.queue == s.queue && t.explicit == s.explicit && t.visited == s.visited && t.st == s.st
  }

  lemma SoundLevel(p: Problem, s: Search, t: Search)
    requires Complete(p.m) && Sound(p, s) && SameButCounters(s, t)
    ensures Sound(p, t)
  {
    forall x
      ensures Enlisted(s, x) <==> Enlisted(t, x)
    {}
    assert EnlistedExact(p, t);
    assert VisitedExact(p, t);
    assert ExplicitExact(p, t);
  }

  lemma SoundVisit(p: Problem, s: Search)
    requires Inv(p, s) && s.queue != [] && Sound(p, s)
    ensures Sound(p, VisitFront(p, s))
  {
    FirstDecidesVisit(p, s);
    ExplicitStep(p, s);
    VisitedStep(p, s);
    EnlistedStep(p, s);
  }

  lemma {:induction false} RunSound(p: Problem, s: Search)
    requires Inv(p, s) && Sound(p, s)
    ensures Inv(p, Run(p, s)) && Sound(p, Run(p, s)) && Run(p, s).queue == []
    decreases |p.m.direct.Keys| - s.nodesVisited
  {
    if s.queue != [] {
      var n, t := RunStep(p, s);
      SoundLevel(p, s, n);
      SoundVisit(p, n);
      RunSound(p, t);
    }
  }

  lemma StartSound(p: Problem)
    requires Closed(p)
    ensures Sound(p, Start(p))
  {
    var s := Start(p);
    forall x
      ensures Enlisted(s, x) <==> Due(p, s.trace, x)
    {
      FreshExact(p.roots, {}, Admits(p, EMPTY), x);
    }
  }

  ghost predicate IsVisited(trace: seq<Visit>, x: NodeId) {
    exists i :: 0 <= i < |trace| && trace[i].peer.id == x
  }

  /** The search visits each module once, in order of its distance; and it visits exactly the roots
      that the closure admits and the peers that closure or replacements admit by the time they
      are first met. */
  lemma SearchExact(p: Problem)
    requires Closed(p)
    ensures BreadthFirst(p.m, p.roots, Final(p).trace)
    ensures forall x :: IsVisited(Final(p).trace, x) <==> Due(p, Final(p).trace, x)
  {
    StartSound(p);
    RunSound(p, Start(p));
    var s := Final(p);
    forall x
      ensures IsVisited(s.trace, x) <==> Due(p, s.trace, x)
    {
      assert Enlisted(s, x) <==> Due(p, s.trace, x);
    }
  }

  /** Of what the closure admits nothing is missed: if met at all, it is visited or stands in for a
      visited peer. */
  lemma NothingMissed(p: Problem, x: NodeId)
    requires Closed(p) && p.closure.Contains(x) && SomeMet(p, Final(p).trace, x)
    ensures IsVisited(Final(p).trace, x) || exists j :: 0 <= j < |Final(p).trace| && Final(p).trace[j].next == Some(x)
  {
    var trace := Final(p).trace;
    SearchExact(p);
    assert trace[..|trace|] == trace;
    if x !in Ids(p.roots) {
      var k := FirstMet(p, trace, |trace|, x);
      if trace[k].next != Some(x) { assert MetAt(p, trace, k, x); }
    }
  }

  lemma {:induction false} FirstMet(p: Problem, trace: seq<Visit>, n: nat, x: NodeId) returns (k: nat)
    requires n <= |trace| && SomeMet(p, trace[..n], x) && x !in Ids(p.roots)
    ensures k < n && MetBy(p, trace[k], x) && !SomeMet(p, trace[..k], x)
  {
    assert n > 0;
    assert trace[..n] == trace[..n - 1] + [trace[n - 1]];
    SomeMetLonger(p, trace[..n - 1], trace[n - 1], x);
    if SomeMet(p, trace[..n - 1], x) {
      k := FirstMet(p, trace, n - 1, x);
    } else {
      k := n - 1;
    }
  }

  /** The first meeting decides: a peer is visited iff the closures admit it by then. */
  lemma FirstMeetingDecides(p: Problem, k: nat, x: NodeId)
    requires Closed(p) && k < |Final(p).trace| && NewAt(p, Final(p).trace, k, x)
    ensures IsVisited(Final(p).trace, x) <==> Admitted(p, Final(p).trace[..k + 1], x)
  {
    var trace := Final(p).trace;
    SearchExact(p);
    forall j | 0 <= j < |trace| && j != k
      ensures !NewAt(p, trace, j, x)
    {
      if j < k { NotMetBefore(p, trace, k, j, x); } else { MetBefore(p, trace, j, k, x); }
    }
    assert MetAt(p, trace, k, x) <==> Admitted(p, trace[..k + 1], x);
  }

  /** So a peer that is first met before the closures admit it is lost for good, even if a later
      replacement brings it in: it counts as visited although it was never queued. */
  lemma MetTooEarly(p: Problem, k: nat, j: nat, x: NodeId)
    requires Closed(p) && k < j < |Final(p).trace| && NewAt(p, Final(p).trace, k, x)
    requires !Admitted(p, Final(p).trace[..k + 1], x) && Brings(p, Final(p).trace[j], x)
    ensures BroughtIn(p, Final(p).trace, x) && !IsVisited(Final(p).trace, x)
  {
    FirstMeetingDecides(p, k, x);
  }

  lemma NotMetBefore(p: Problem, trace: seq<Visit>, k: nat, j: nat, x: NodeId)
    requires j < k <= |trace| && !SomeMet(p, trace[..k], x)
    ensures !MetBy(p, trace[j], x)
  {
    assert trace[..k][j] == trace[j];
  }

  lemma MetBefore(p: Problem, trace: seq<Visit>, k: nat, j: nat, x: NodeId)
    requires j < k <= |trace| && MetBy(p, trace[j], x)
    ensures SomeMet(p, trace[..k], x)
  {
    assert trace[..k][j] == trace[j];
  }

  /** Where no rule decides, no visited version of a library was nearer than the chosen one. */
  lemma NearestVersionWins(p: Problem, lib: Dir) returns (k: int)
    requires Closed(p) && lib in Final(p).st.resolutions
    ensures var (trace, choice) := (Final(p).trace, Final(p).st.resolutions[lib].choice);
      && FirstChosen(p.env, trace, lib, choice, k)
      && forall j :: 0 <= j < |trace| && trace[j].peer.kind != Unversioned && p.env.LibOf(trace[j].peer.id) == lib
                     ==> trace[k].depth <= trace[j].depth
  {
    FinalDecides(p);
    var s := Final(p);
    k :| FirstChosen(p.env, s.trace, lib, s.st.resolutions[lib].choice, k);
    FirstIsNearest(p.env, s.trace, lib, k);
  }

  lemma FinalDecides(p: Problem)
    requires Closed(p)
    ensures FirstDecides(p.env, Final(p).trace, Final(p).st.resolutions) && InOrder(Final(p).trace)
  {
    StartSound(p);
    RunSound(p, Start(p));
  }

  lemma FirstIsNearest(env: Env, trace: seq<Visit>, lib: Dir, k: int)
    requires InOrder(trace) && FirstOfLibrary(env, trace, lib, k)
    ensures forall j :: 0 <= j < |trace| && trace[j].peer.kind != Unversioned && env.LibOf(trace[j].peer.id) == lib
                     ==> trace[k].depth <= trace[j].depth
  {}

  // ---------------------------------------------------------------- depth is distance

  ghost predicate LeadsTo(m: Modules, trace: seq<Visit>, u: NodeId, w: NodeId) {
    exists j :: 0 <= j < |trace| && trace[j].peer.id == u && w in Ids(Succ(m, trace[j]))
  }

  /** A walk of the traversal from the roots. */
  ghost predicate IsWalk(m: Modules, roots: seq<ResolvedPeer>, trace: seq<Visit>, walk: seq<NodeId>) {
    && walk != []
    && var n := |walk| - 1;
      if n == 0 then walk[0] in Ids(roots)
      else IsWalk(m, roots, trace, walk[..n]) && LeadsTo(m, trace, walk[n - 1], walk[n])
  }

  lemma DepthStep(m: Modules, roots: seq<ResolvedPeer>, trace: seq<Visit>, u: NodeId, w: NodeId, k: nat) returns (j: nat)
    requires BreadthFirst(m, roots, trace) && LeadsTo(m, trace, u, w) && k < |trace| && trace[k].peer.id == w
    ensures j < |trace| && trace[j].peer.id == u && trace[k].depth <= trace[j].depth + 1
  {
    assert AtTrueDepth(m, roots, trace, w, trace[k].depth);
    var i :| 0 <= i < |trace| && trace[i].peer.id == u && w in Ids(Succ(m, trace[i]));
    j := i;
  }

  /** No walk to a visited module is shorter than its depth... */
  lemma {:induction false} NoShorterWalk(m: Modules, roots: seq<ResolvedPeer>, trace: seq<Visit>, walk: seq<NodeId>, k: nat)
    requires BreadthFirst(m, roots, trace) && IsWalk(m, roots, trace, walk)
    requires k < |trace| && walk[|walk| - 1] == trace[k].peer.id
    ensures trace[k].depth <= |walk|
    decreases |walk|
  {
    var n := |walk| - 1;
    if n == 0 {
      assert AtTrueDepth(m, roots, trace, trace[k].peer.id, trace[k].depth);
    } else {
      var j := DepthStep(m, roots, trace, walk[n - 1], walk[n], k);
      NoShorterWalk(m, roots, trace, walk[..n], j);
    }
  }

  lemma WalkLonger(m: Modules, roots: seq<ResolvedPeer>, trace: seq<Visit>, walk: seq<NodeId>, id: NodeId)
    requires IsWalk(m, roots, trace, walk) && LeadsTo(m, trace, walk[|walk| - 1], id)
    ensures IsWalk(m, roots, trace, walk + [id])
  {
    assert (walk + [id])[..|walk|] == walk;
  }

  lemma Predecessor(m: Modules, roots: seq<ResolvedPeer>, trace: seq<Visit>, k: nat) returns (j: nat)
    requires BreadthFirst(m, roots, trace) && k < |trace| && !(trace[k].depth == 1 && trace[k].peer.id in Ids(roots))
    ensures j < |trace| && trace[j].depth + 1 == trace[k].depth && LeadsTo(m, trace, trace[j].peer.id, trace[k].peer.id)
  {
    var id := trace[k].peer.id;
    assert AtTrueDepth(m, roots, trace, id, trace[k].depth);
    var i :| 0 <= i < |trace| && trace[i].depth + 1 == trace[k].depth && id in Ids(Succ(m, trace[i]));
    j := i;
  }

  /** ... and one of that length exists. */
  lemma {:induction false} WalkOfDepth(m: Modules, roots: seq<ResolvedPeer>, trace: seq<Visit>, k: nat) returns (walk: seq<NodeId>)
    requires BreadthFirst(m, roots, trace) && k < |trace|
    ensures IsWalk(m, roots, trace, walk) && walk[|walk| - 1] == trace[k].peer.id && |walk| == trace[k].depth
    decreases trace[k].depth
  {
    var id := trace[k].peer.id;
    if trace[k].depth == 1 && id in Ids(roots) {
      walk := [id];
    } else {
      var j := Predecessor(m, roots, trace, k);
      var prior := WalkOfDepth(m, roots, trace, j);
      WalkLonger(m, roots, trace, prior, id);
      walk := prior + [id];
    }
  }

  // ---------------------------------------------------------------- one version per library

  ghost predicate AllKinded(env: Env, peers: seq<ResolvedPeer>) {
    forall i :: 0 <= i < |peers| ==> WellKinded(env, peers[i])
  }

  /** Versioned directories are no libraries, and all peers carry the right kind. */
  ghost predicate Versioned(p: Problem) {
    && Orderly(p.env, p.rules) && AllKinded(p.env, p.roots)
    && forall v :: v in p.m.direct ==> AllKinded(p.env, p.m.direct[v])
  }

  lemma FreshKinded(env: Env, peers: seq<ResolvedPeer>, visited: set<NodeId>, admits: NodeId -> bool)
    requires AllKinded(env, peers)
    ensures AllKinded(env, Fresh(peers, visited, admits))
  {
    FreshProperties(peers, visited, admits);
  }

  ghost predicate ChoiceInv(p: Problem, s: Search) {
    OneChoice(p.env, s.st) && AllKinded(p.env, s.queue)
  }

  lemma QueueKinded(p: Problem, s: Search)
    requires Inv(p, s) && s.queue != [] && Versioned(p) && AllKinded(p.env, s.queue)
    ensures AllKinded(p.env, VisitFront(p, s).queue)
  {
    var t := VisitFront(p, s);
    var v := t.trace[|s.trace|];
    var visited := Seen(s.visited, v);
    FreshKinded(p.env, Succ(p.m, v), visited, Admits(p, t.explicit));
  }

  lemma {:induction false} RunChoice(p: Problem, s: Search)
    requires Inv(p, s) && Versioned(p) && ChoiceInv(p, s)
    ensures ChoiceInv(p, Run(p, s))
    decreases |p.m.direct.Keys| - s.nodesVisited
  {
    if s.queue != [] {
      var n, t := RunStep(p, s);
      assert ChoiceInv(p, t) by {
        ResolvedOneChoice(p.env, p.rules, n.st, n.queue[0], n.depth);
        QueueKinded(p, n);
      }
      RunChoice(p, t);
    }
  }

  /** Whatever the search accepts, it accepts one version of each library. */
  lemma SearchOneVersion(p: Problem)
    requires Closed(p) && Versioned(p)
    ensures OneChoice(p.env, Final(p).st)
  {
    FreshKinded(p.env, p.roots, {}, Admits(p, EMPTY));
    RunChoice(p, Start(p));
  }

  lemma {:induction false} ChainEnd(m: Modules, res: Resolutions, peers: seq<ResolvedPeer>, chain: seq<NodeId>) returns (x: NodeId)
    requires Chain(m, res, peers, chain)
    ensures x in res && res[x].peer.id == chain[|chain| - 1]
    decreases |chain|
  {
    if |chain| > 1 {
      x := ChainEnd(m, res, m.direct[chain[0]], chain[1..]);
    } else {
      var i :| 0 <= i < |peers| && peers[i].id in res && res[peers[i].id].peer.id == chain[0];
      x := peers[i].id;
    }
  }

  /** The list of managed peers that the search and the preorder walk produce together. */
  ghost function PeerList(p: Problem): seq<NodeId>
    requires Closed(p)
  {
    StartSound(p);
    RunSound(p, Start(p));
    Preorder(p.m, Final(p).st.accumulated, p.roots, [])
  }

  /** The list never holds two versions of one library. */
  lemma ListOneVersion(p: Problem, a: NodeId, b: NodeId)
    requires Closed(p) && Versioned(p) && a in PeerList(p) && b in PeerList(p)
    requires p.env.contrib(a) && p.env.contrib(b) && p.env.LibOf(a) == p.env.LibOf(b)
    ensures a == b
  {
    var x := ListedFrom(p, a);
    var y := ListedFrom(p, b);
    SearchOneVersion(p);
    OneVersionPerLibrary(p.env, Final(p).st, x, y);
  }

  lemma ListedFrom(p: Problem, a: NodeId) returns (x: NodeId)
    requires Closed(p) && a in PeerList(p)
    ensures x in Final(p).st.accumulated && Final(p).st.accumulated[x].peer.id == a
  {
    StartSound(p);
    RunSound(p, Start(p));
    var res := Final(p).st.accumulated;
    ListExact(p.m, res, p.roots);
    var c :| Chain(p.m, res, p.roots, c) && c[|c| - 1] == a;
    x := ChainEnd(p.m, res, p.roots, c);
  }
}
