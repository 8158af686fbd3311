/** What conflict resolution writes down, as a function of the visits alone. */
module ConflictLedger {
  import opened Wrappers
  import opened ModuleGraph
  import opened PeersClosures
  import opened DependencyRules
  import opened ConflictResolver
  import opened ConflictSearch
  import opened ConflictResolution
  import opened ConflictTheory

  // ---------------------------------------------------------------- what should be written

  ghost predicate InLibrary(env: Env, v: Visit, lib: Dir) {
    v.peer.kind != Unversioned && env.LibOf(v.peer.id) == lib
  }

  /** Visit `k` is the first to its library. */
  ghost predicate IsFirst(env: Env, trace: seq<Visit>, k: nat)
    requires k < |trace|
  {
    forall j :: 0 <= j < k ==> !InLibrary(env, trace[j], env.LibOf(trace[k].peer.id))
  }

  /** The entry that visit `v` leaves behind: an unversioned module stands for itself, the first visit
      to a library enters the choice, and every other version stands for the choice if a rule made it. */
  ghost predicate Leaves(env: Env, resolutions: map<Dir, Record>, v: Visit, first: bool, x: NodeId, info: ResolutionInfo) {
    && info.minDepth == v.depth
    && if v.peer.kind == Unversioned then x == v.peer.id && info.peer == v.peer
       else
         var lib := env.LibOf(v.peer.id);
         && lib in resolutions && info.peer == resolutions[lib].choice
         && ((first && x == info.peer.id) || (info.peer.kind == Managed && x == v.peer.id && x != info.peer.id))
  }

  ghost predicate LeftBy(env: Env, trace: seq<Visit>, resolutions: map<Dir, Record>, k: nat, x: NodeId, info: ResolutionInfo)
    requires k < |trace|
  {
    Leaves(env, resolutions, trace[k], IsFirst(env, trace, k), x, info)
  }

  ghost predicate SomeLeft(env: Env, trace: seq<Visit>, resolutions: map<Dir, Record>, x: NodeId, info: ResolutionInfo) {
    exists k :: 0 <= k < |trace| && LeftBy(env, trace, resolutions, k, x, info)
  }

  ghost predicate Holds(st: State, x: NodeId, info: ResolutionInfo) {
    x in st.accumulated && st.accumulated[x] == info
  }

  ghost predicate EntriesExact(env: Env, trace: seq<Visit>, st: State) {
    forall x, info :: Holds(st, x, info) <==> SomeLeft(env, trace, st.resolutions, x, info)
  }

  /** What the first visit to a library chooses: the version a known rule asks for, else the peer itself. */
  ghost predicate Chooses(env: Env, rules: Rules, v: Visit, choice: ResolvedPeer) {
    var rule := GetRuleForPeer(rules, env.dirOf(v.peer.id), v.depth == 1);
    if rule != [] && rule in env.libIds then choice == ResolvedPeer(env.libIds[rule], Managed)
    else choice.id == v.peer.id && choice.kind == if v.peer.kind == Managed then Transitive else v.peer.kind
  }

  /** The versions of a library in the order of their visits. */
  ghost function Versions(env: Env, trace: seq<Visit>, lib: Dir): seq<string> {
    if trace == [] then []
    else
      var n := |trace| - 1;
      Versions(env, trace[..n], lib) + if InLibrary(env, trace[n], lib) then [Basename(env.dirOf(trace[n].peer.id))] else []
  }

  /** Conflicts are reported where the rules forbid them, and then all versions are listed. */
  ghost function Conflicts(rules: Rules, choice: ResolvedPeer, first: NodeId, versions: seq<string>): seq<string> {
    var forbidden := if choice.kind == Managed then rules.forbidConflictDM || rules.forbidConflictDMRecent else rules.forbidConflict;
    if forbidden && (|versions| > 1 || first != choice.id) then versions else []
  }

  ghost predicate RecordExact(env: Env, rules: Rules, v: Visit, versions: seq<string>, r: Record) {
    && Chooses(env, rules, v, r.choice)
    && r.version == Basename(env.dirOf(r.choice.id))
    && versions != [] && versions[0] == Basename(env.dirOf(v.peer.id))
    && r.conflicts == Conflicts(rules, r.choice, v.peer.id, versions)
  }

  /** The record of the library that visit `k` is the first to. */
  ghost predicate RecordAt(env: Env, rules: Rules, trace: seq<Visit>, resolutions: map<Dir, Record>, k: nat)
    requires k < |trace|
  {
    trace[k].peer.kind != Unversioned && IsFirst(env, trace, k) ==>
      var lib := env.LibOf(trace[k].peer.id);
      lib in resolutions && RecordExact(env, rules, trace[k], Versions(env, trace, lib), resolutions[lib])
  }

  ghost predicate RecordsExact(env: Env, rules: Rules, trace: seq<Visit>, resolutions: map<Dir, Record>) {
    forall k {:trigger RecordAt(env, rules, trace, resolutions, k)} :: 0 <= k < |trace| ==> RecordAt(env, rules, trace, resolutions, k)
  }

  /** What is traversed in place of the peer. */
  ghost predicate GoesOn(env: Env, resolutions: map<Dir, Record>, v: Visit, first: bool) {
    if v.peer.kind == Unversioned then v.next == Some(v.peer.id)
    else
      var lib := env.LibOf(v.peer.id);
      lib in resolutions && v.next == if first then Some(resolutions[lib].choice.id) else None
  }

  ghost predicate NextAt(env: Env, trace: seq<Visit>, resolutions: map<Dir, Record>, k: nat)
    requires k < |trace|
  {
    GoesOn(env, resolutions, trace[k], IsFirst(env, trace, k))
  }

  ghost predicate NextsExact(env: Env, trace: seq<Visit>, resolutions: map<Dir, Record>) {
    forall k {:trigger NextAt(env, trace, resolutions, k)} :: 0 <= k < |trace| ==> NextAt(env, trace, resolutions, k)
  }

  ghost predicate Ledger(env: Env, rules: Rules, trace: seq<Visit>, st: State) {
    && EntriesExact(env, trace, st)
    && RecordsExact(env, rules, trace, st.resolutions)
    && NextsExact(env, trace, st.resolutions)
  }

  // ---------------------------------------------------------------- one visit

  /** `cur` has no entry yet, unless it is the choice of its library. */
  ghost predicate Ready(env: Env, st: State, cur: ResolvedPeer) {
    var lib := env.LibOf(cur.id);
    && (cur.id in st.accumulated ==> cur.kind != Unversioned && lib in st.resolutions && st.resolutions[lib].choice.id == cur.id)
    && (forall y :: y in st.accumulated && env.contrib(y) ==> env.LibOf(y) in st.resolutions)
    && (cur.kind != Unversioned && lib in st.resolutions ==> st.resolutions[lib].choice.id in st.accumulated)
  }

  lemma RepeatedLeaves(env: Env, rules: Rules, st: State, cur: ResolvedPeer, depth: nat, x: NodeId, info: ResolutionInfo)
    requires Ready(env, st, cur) && cur.kind != Unversioned && env.LibOf(cur.id) in st.resolutions
    ensures var (now, next) := Resolved(env, rules, st, cur, depth);
      var v := Visit(cur, next, depth);
      && (Holds(now, x, info) <==> Holds(st, x, info) || Leaves(env, now.resolutions, v, false, x, info))
      && GoesOn(env, now.resolutions, v, false)
  {}

  lemma FirstLeaves(env: Env, rules: Rules, st: State, cur: ResolvedPeer, depth: nat, x: NodeId, info: ResolutionInfo)
    requires Orderly(env, rules) && WellKinded(env, cur) && Ready(env, st, cur)
    requires cur.kind != Unversioned && env.LibOf(cur.id) !in st.resolutions
    ensures var (now, next) := Resolved(env, rules, st, cur, depth);
      var v := Visit(cur, next, depth);
      && (Holds(now, x, info) <==> Holds(st, x, info) || Leaves(env, now.resolutions, v, true, x, info))
      && GoesOn(env, now.resolutions, v, true)
  {
    RuleStaysInLibrary(rules, env.dirOf(cur.id), depth == 1);
    var (now, next) := Resolved(env, rules, st, cur, depth);
    var choice := now.resolutions[env.LibOf(cur.id)].choice;
    assert env.contrib(choice.id) && env.LibOf(choice.id) == env.LibOf(cur.id);
    assert choice.id !in st.accumulated;
  }

  lemma UnversionedLeaves(env: Env, rules: Rules, st: State, cur: ResolvedPeer, depth: nat, first: bool, x: NodeId, info: ResolutionInfo)
    requires Ready(env, st, cur) && cur.kind == Unversioned
    ensures var (now, next) := Resolved(env, rules, st, cur, depth);
      var v := Visit(cur, next, depth);
      && (Holds(now, x, info) <==> Holds(st, x, info) || Leaves(env, now.resolutions, v, first, x, info))
      && GoesOn(env, now.resolutions, v, first)
  {}

  /** Resolving a peer adds exactly the entries that its visit is to leave. */
  lemma ResolvedLeaves(env: Env, rules: Rules, st: State, cur: ResolvedPeer, depth: nat, first: bool, x: NodeId, info: ResolutionInfo)
    requires Orderly(env, rules) && WellKinded(env, cur) && Ready(env, st, cur)
    requires cur.kind != Unversioned ==> (first <==> env.LibOf(cur.id) !in st.resolutions)
    ensures var (now, next) := Resolved(env, rules, st, cur, depth);
      var v := Visit(cur, next, depth);
      && (Holds(now, x, info) <==> Holds(st, x, info) || Leaves(env, now.resolutions, v, first, x, info))
      && GoesOn(env, now.resolutions, v, first)
  {
    if cur.kind == Unversioned {
      UnversionedLeaves(env, rules, st, cur, depth, first, x, info);
    } else if first {
      FirstLeaves(env, rules, st, cur, depth, x, info);
    } else {
      RepeatedLeaves(env, rules, st, cur, depth, x, info);
    }
  }

  // ---------------------------------------------------------------- one more visit in the trace

  lemma FirstLonger(env: Env, trace: seq<Visit>, v: Visit, k: nat)
    requires k < |trace|
    ensures IsFirst(env, trace + [v], k) <==> IsFirst(env, trace, k)
  {
    assert forall j :: 0 <= j <= k ==> (trace + [v])[j] == trace[j];
  }

  ghost predicate SameChoices(was: map<Dir, Record>, now: map<Dir, Record>) {
    forall lib :: lib in was ==> lib in now && now[lib].choice == was[lib].choice
  }

  ghost predicate AllChosen(env: Env, trace: seq<Visit>, resolutions: map<Dir, Record>) {
    forall j :: 0 <= j < |trace| && trace[j].peer.kind != Unversioned ==> env.LibOf(trace[j].peer.id) in resolutions
  }

  lemma LeftLonger(env: Env, trace: seq<Visit>, v: Visit, was: map<Dir, Record>, now: map<Dir, Record>, x: NodeId, info: ResolutionInfo)
    requires SameChoices(was, now) && AllChosen(env, trace, was)
    ensures SomeLeft(env, trace + [v], now, x, info) <==>
      SomeLeft(env, trace, was, x, info) || LeftBy(env, trace + [v], now, |trace|, x, info)
  {
    var longer := trace + [v];
    forall k | 0 <= k < |trace|
      ensures LeftBy(env, longer, now, k, x, info) <==> LeftBy(env, trace, was, k, x, info)
    {
      FirstLonger(env, trace, v, k);
      assert longer[k] == trace[k];
    }
    if k :| 0 <= k < |trace| && LeftBy(env, trace, was, k, x, info) {
      assert LeftBy(env, longer, now, k, x, info);
    }
  }

  lemma NextLonger(env: Env, trace: seq<Visit>, v: Visit, was: map<Dir, Record>, now: map<Dir, Record>)
    requires SameChoices(was, now) && NextsExact(env, trace, was) && NextAt(env, trace + [v], now, |trace|)
    ensures NextsExact(env, trace + [v], now)
  {
    forall k | 0 <= k < |trace|
      ensures NextAt(env, trace + [v], now, k)
    {
      assert NextAt(env, trace, was, k);
      FirstLonger(env, trace, v, k);
    }
  }

  // ---------------------------------------------------------------- records

  lemma VersionsLonger(env: Env, trace: seq<Visit>, v: Visit, lib: Dir)
    ensures Versions(env, trace + [v], lib) ==
      Versions(env, trace, lib) + if InLibrary(env, v, lib) then [Basename(env.dirOf(v.peer.id))] else []
  {
    assert (trace + [v])[..|trace|] == trace;
  }

  lemma {:induction false} NoVersions(env: Env, trace: seq<Visit>, lib: Dir)
    requires forall j :: 0 <= j < |trace| ==> !InLibrary(env, trace[j], lib)
    ensures Versions(env, trace, lib) == []
  {
    if trace != [] { NoVersions(env, trace[..|trace| - 1], lib); }
  }

  /** One more version of a library extends the list of its conflicts, if they are forbidden. */
  lemma RepeatedExact(env: Env, rules: Rules, v: Visit, versions: seq<string>, r: Record, version: string)
    requires RecordExact(env, rules, v, versions, r)
    ensures RecordExact(env, rules, v, versions + [version], RepeatedVersion(rules, r, version))
  {
    assert |versions| == 1 ==> versions == [versions[0]];
  }

  lemma FirstRecord(env: Env, rules: Rules, st: State, cur: ResolvedPeer, depth: nat)
    requires Orderly(env, rules) && WellKinded(env, cur) && cur.kind != Unversioned && env.LibOf(cur.id) !in st.resolutions
    ensures var (now, next) := Resolved(env, rules, st, cur, depth);
      RecordExact(env, rules, Visit(cur, next, depth), [Basename(env.dirOf(cur.id))], now.resolutions[env.LibOf(cur.id)])
  {}

  /** Records change only in the library visited. */
  lemma RecordsKept(env: Env, rules: Rules, st: State, cur: ResolvedPeer, depth: nat, lib: Dir)
    requires lib in st.resolutions
    ensures var now := Resolved(env, rules, st, cur, depth).0;
      lib in now.resolutions && now.resolutions[lib] ==
        if cur.kind != Unversioned && env.LibOf(cur.id) == lib then RepeatedVersion(rules, st.resolutions[lib], Basename(env.dirOf(cur.id)))
        else st.resolutions[lib]
  {}

  lemma RecordLonger(env: Env, rules: Rules, trace: seq<Visit>, st: State, v: Visit, k: nat)
    requires k < |trace| && RecordAt(env, rules, trace, st.resolutions, k)
    ensures RecordAt(env, rules, trace + [v], Resolved(env, rules, st, v.peer, v.depth).0.resolutions, k)
  {
    FirstLonger(env, trace, v, k);
    if trace[k].peer.kind != Unversioned && IsFirst(env, trace, k) {
      var lib := env.LibOf(trace[k].peer.id);
      RecordsKept(env, rules, st, v.peer, v.depth, lib);
      VersionsLonger(env, trace, v, lib);
      var versions := Versions(env, trace, lib);
      if InLibrary(env, v, lib) {
        RepeatedExact(env, rules, trace[k], versions, st.resolutions[lib], Basename(env.dirOf(v.peer.id)));
      } else {
        assert versions + [] == versions;
      }
    }
  }

  lemma LastRecord(env: Env, rules: Rules, trace: seq<Visit>, st: State, v: Visit)
    requires Orderly(env, rules) && WellKinded(env, v.peer)
    requires v.peer.kind != Unversioned && IsFirst(env, trace + [v], |trace|) ==> env.LibOf(v.peer.id) !in st.resolutions
    requires v.next == Resolved(env, rules, st, v.peer, v.depth).1
    ensures RecordAt(env, rules, trace + [v], Resolved(env, rules, st, v.peer, v.depth).0.resolutions, |trace|)
  {
    var lib := env.LibOf(v.peer.id);
    if v.peer.kind != Unversioned && IsFirst(env, trace + [v], |trace|) {
      assert forall j :: 0 <= j < |trace| ==> (trace + [v])[j] == trace[j];
      NoVersions(env, trace, lib);
      VersionsLonger(env, trace, v, lib);
      assert [] + [Basename(env.dirOf(v.peer.id))] == [Basename(env.dirOf(v.peer.id))];
      FirstRecord(env, rules, st, v.peer, v.depth);
      assert Visit(v.peer, v.next, v.depth) == v;
    }
  }

  lemma RecordsStep(env: Env, rules: Rules, trace: seq<Visit>, st: State, v: Visit)
    requires Orderly(env, rules) && WellKinded(env, v.peer) && RecordsExact(env, rules, trace, st.resolutions)
    requires v.peer.kind != Unversioned && IsFirst(env, trace + [v], |trace|) ==> env.LibOf(v.peer.id) !in st.resolutions
    requires v.next == Resolved(env, rules, st, v.peer, v.depth).1
    ensures RecordsExact(env, rules, trace + [v], Resolved(env, rules, st, v.peer, v.depth).0.resolutions)
  {
    forall k | 0 <= k < |trace + [v]|
      ensures RecordAt(env, rules, trace + [v], Resolved(env, rules, st, v.peer, v.depth).0.resolutions, k)
    {
      if k < |trace| { RecordLonger(env, rules, trace, st, v, k); } else { LastRecord(env, rules, trace, st, v); }
    }
  }

  // ---------------------------------------------------------------- the whole search

  ghost predicate TraceKinded(env: Env, trace: seq<Visit>) {
    forall k :: 0 <= k < |trace| ==> WellKinded(env, trace[k].peer)
  }

  ghost predicate Unvisited(trace: seq<Visit>, x: NodeId) {
    forall k :: 0 <= k < |trace| ==> trace[k].peer.id != x
  }

  /** What the ledger needs to know of the search so far. */
  ghost predicate Settled(env: Env, trace: seq<Visit>, st: State) {
    && OneChoice(env, st) && TraceKinded(env, trace) && FirstDecides(env, trace, st.resolutions)
    && EntriesExact(env, trace, st)
  }

  lemma EntryOf(env: Env, trace: seq<Visit>, st: State, y: NodeId) returns (k: nat)
    requires Settled(env, trace, st) && y in st.accumulated
    ensures k < |trace| && LeftBy(env, trace, st.resolutions, k, y, st.accumulated[y])
  {
    assert Holds(st, y, st.accumulated[y]);
    assert SomeLeft(env, trace, st.resolutions, y, st.accumulated[y]);
    k :| 0 <= k < |trace| && LeftBy(env, trace, st.resolutions, k, y, st.accumulated[y]);
  }

  lemma EntryChosen(env: Env, trace: seq<Visit>, st: State, lib: Dir)
    requires Settled(env, trace, st) && lib in st.resolutions
    ensures st.resolutions[lib].choice.id in st.accumulated
  {
    var choice := st.resolutions[lib].choice;
    var k :| FirstChosen(env, trace, lib, choice, k);
    var info := ResolutionInfo(trace[k].depth, choice);
    assert LeftBy(env, trace, st.resolutions, k, choice.id, info);
    assert SomeLeft(env, trace, st.resolutions, choice.id, info);
    assert Holds(st, choice.id, info);
  }

  lemma IsReady(env: Env, trace: seq<Visit>, st: State, cur: ResolvedPeer)
    requires Settled(env, trace, st) && WellKinded(env, cur) && Unvisited(trace, cur.id)
    ensures Ready(env, st, cur)
  {
    var lib := env.LibOf(cur.id);
    forall y | y in st.accumulated && env.contrib(y)
      ensures env.LibOf(y) in st.resolutions
    {
      var k := EntryOf(env, trace, st, y);
      assert WellKinded(env, trace[k].peer);
    }
    if cur.id in st.accumulated {
      var k := EntryOf(env, trace, st, cur.id);
    }
    if cur.kind != Unversioned && lib in st.resolutions { EntryChosen(env, trace, st, lib); }
  }

  lemma FirstIfNew(env: Env, trace: seq<Visit>, v: Visit, resolutions: map<Dir, Record>)
    requires FirstDecides(env, trace, resolutions) && v.peer.kind != Unversioned
    ensures IsFirst(env, trace + [v], |trace|) <==> env.LibOf(v.peer.id) !in resolutions
  {
    var longer, lib := trace + [v], env.LibOf(v.peer.id);
    assert longer[|trace|] == v && forall j :: 0 <= j < |trace| ==> longer[j] == trace[j];
    if lib in resolutions {
      var k :| FirstChosen(env, trace, lib, resolutions[lib].choice, k);
      assert InLibrary(env, longer[k], lib);
    }
  }

  lemma LedgerStep(env: Env, rules: Rules, trace: seq<Visit>, st: State, v: Visit)
    requires Orderly(env, rules) && Settled(env, trace, st) && Ledger(env, rules, trace, st)
    requires WellKinded(env, v.peer) && Unvisited(trace, v.peer.id)
    requires v.next == Resolved(env, rules, st, v.peer, v.depth).1
    ensures Ledger(env, rules, trace + [v], Resolved(env, rules, st, v.peer, v.depth).0)
  {
    var now, longer, n := Resolved(env, rules, st, v.peer, v.depth).0, trace + [v], |trace|;
    var first := IsFirst(env, longer, n);
    IsReady(env, trace, st, v.peer);
    if v.peer.kind != Unversioned { FirstIfNew(env, trace, v, st.resolutions); }
    RecordsStep(env, rules, trace, st, v);
    ResolvedRecords(env, rules, st, v.peer, v.depth);
    assert SameChoices(st.resolutions, now.resolutions);
    assert Visit(v.peer, v.next, v.depth) == v && longer[n] == v;
    forall x, info
      ensures Holds(now, x, info) <==> SomeLeft(env, longer, now.resolutions, x, info)
      ensures NextAt(env, longer, now.resolutions, n)
    {
      ResolvedLeaves(env, rules, st, v.peer, v.depth, first, x, info);
      LeftLonger(env, trace, v, st.resolutions, now.resolutions, x, info);
      assert Holds(st, x, info) <==> SomeLeft(env, trace, st.resolutions, x, info);
    }
    NextLonger(env, trace, v, st.resolutions, now.resolutions);
  }

  ghost predicate LedgerInv(p: Problem, s: Search) {
    && ChoiceInv(p, s) && TraceKinded(p.env, s.trace) && FirstDecides(p.env, s.trace, s.st.resolutions)
    && Ledger(p.env, p.rules, s.trace, s.st)
  }

  lemma LedgerVisit(p: Problem, s: Search)
    requires Inv(p, s) && s.queue != [] && Versioned(p) && LedgerInv(p, s)
    ensures LedgerInv(p, VisitFront(p, s))
  {
    var t := VisitFront(p, s);
    var v := t.trace[|s.trace|];
    ResolvedOneChoice(p.env, p.rules, s.st, s.queue[0], s.depth);
    QueueKinded(p, s);
    FirstDecidesVisit(p, s);
    assert Unvisited(s.trace, v.peer.id);
    LedgerStep(p.env, p.rules, s.trace, s.st, v);
  }

  lemma {:induction false} RunLedger(p: Problem, s: Search)
    requires Inv(p, s) && Versioned(p) && LedgerInv(p, s)
    ensures LedgerInv(p, Run(p, s))
    decreases |p.m.direct.Keys| - s.nodesVisited
  {
    if s.queue != [] {
      var n, t := RunStep(p, s);
      LedgerVisit(p, n);
      RunLedger(p, t);
    }
  }

  /** The state of a finished search is what its visits leave behind. */
  lemma LedgerExact(p: Problem)
    requires Closed(p) && Versioned(p)
    ensures Ledger(p.env, p.rules, Final(p).trace, Final(p).st)
  {
    FreshKinded(p.env, p.roots, {}, Admits(p, EMPTY));
    RunLedger(p, Start(p));
  }

  /** Of the visited modules, the unversioned ones stand for themselves; a version has an entry iff it is
      the choice of its library or a rule made the choice, and then it stands for the choice. */
  lemma VisitAnswered(p: Problem, k: nat)
    requires Closed(p) && Versioned(p) && k < |Final(p).trace|
    ensures var (v, st) := (Final(p).trace[k], Final(p).st);
      if v.peer.kind == Unversioned then Holds(st, v.peer.id, ResolutionInfo(v.depth, v.peer))
      else
        var lib := p.env.LibOf(v.peer.id);
        && lib in st.resolutions
        && var choice := st.resolutions[lib].choice;
          && (v.peer.id in st.accumulated <==> choice.kind == Managed || choice.id == v.peer.id)
          && (v.peer.id in st.accumulated ==> st.accumulated[v.peer.id].peer == choice)
  {
    FinalSettled(p);
    var (env, trace, st) := (p.env, Final(p).trace, Final(p).st);
    var v, x := trace[k], trace[k].peer.id;
    if v.peer.kind == Unversioned {
      assert LeftBy(env, trace, st.resolutions, k, x, ResolutionInfo(v.depth, v.peer));
      assert SomeLeft(env, trace, st.resolutions, x, ResolutionInfo(v.depth, v.peer));
    } else {
      var lib := env.LibOf(x);
      var choice := st.resolutions[lib].choice;
      var info := ResolutionInfo(v.depth, choice);
      EntryChosen(env, trace, st, lib);
      if choice.kind == Managed && x != choice.id {
        assert LeftBy(env, trace, st.resolutions, k, x, info);
        assert Holds(st, x, info) <==> SomeLeft(env, trace, st.resolutions, x, info);
      }
      if x in st.accumulated {
        var j := EntryOf(env, trace, st, x);
        assert WellKinded(env, trace[j].peer) && WellKinded(env, v.peer);
      }
    }
  }

  lemma FinalSettled(p: Problem)
    requires Closed(p) && Versioned(p)
    ensures Settled(p.env, Final(p).trace, Final(p).st)
  {
    FreshKinded(p.env, p.roots, {}, Admits(p, EMPTY));
    RunLedger(p, Start(p));
  }
}
