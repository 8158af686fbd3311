/** In which order peers are visited and modules listed. */
module ListOrder {
  import opened Wrappers
  import opened ModuleGraph
  import opened PeersClosures
  import opened ConflictResolver
  import opened ConflictSearch
  import opened ConflictResolution
  import opened ConflictTheory
  import opened PreorderSort
  import opened CollectedModules

  // ---------------------------------------------------------------- the preorder list

  /** `id` is what the first peer resolves to of those that resolve to nothing listed. */
  ghost predicate FirstOpen(res: Resolutions, peers: seq<ResolvedPeer>, out: seq<NodeId>, id: NodeId) {
    exists i :: 0 <= i < |peers| && OpenAt(res, peers, out, id, i)
  }

  ghost predicate OpenAt(res: Resolutions, peers: seq<ResolvedPeer>, out: seq<NodeId>, id: NodeId, i: nat)
    requires i < |peers|
  {
    && id !in out && peers[i].id in res && res[peers[i].id].peer.id == id
    && forall j :: 0 <= j < i && peers[j].id in res ==> res[peers[j].id].peer.id in out
  }

  /** Nothing is left to list of the peers of the `k`-th module. */
  ghost predicate DoneAt(m: Modules, res: Resolutions, out: seq<NodeId>, k: nat)
    requires k < |out|
  {
    out[k] in m.direct && Covers(res, m.direct[out[k]], out)
  }

  /** `id` belongs to the `k`-th module, the last that has something left. */
  ghost predicate NextOf(m: Modules, res: Resolutions, out: seq<NodeId>, k: nat, id: NodeId)
    requires k < |out|
  {
    && out[k] in m.direct && FirstOpen(res, m.direct[out[k]], out, id)
    && forall j :: k < j < |out| ==> DoneAt(m, res, out, j)
  }

  /** What depth-first preorder lists after `out`: the first open peer of the last module that has one,
      counting from `base`, and else of `peers`. */
  ghost predicate ComesNext(m: Modules, res: Resolutions, peers: seq<ResolvedPeer>, base: nat, out: seq<NodeId>, id: NodeId) {
    || (exists k :: base <= k < |out| && NextOf(m, res, out, k, id))
    || ((forall j :: base <= j < |out| ==> DoneAt(m, res, out, j)) && FirstOpen(res, peers, out, id))
  }

  lemma OpenRest(res: Resolutions, peers: seq<ResolvedPeer>, out: seq<NodeId>, id: NodeId)
    requires peers != [] && FirstOpen(res, peers[1..], out, id)
    requires peers[0].id in res ==> res[peers[0].id].peer.id in out
    ensures FirstOpen(res, peers, out, id)
  {
    var i :| 0 <= i < |peers[1..]| && OpenAt(res, peers[1..], out, id, i);
    forall j | 0 <= j < i + 1 && peers[j].id in res
      ensures res[peers[j].id].peer.id in out
    {
      if j > 0 { assert peers[1..][j - 1] == peers[j]; }
    }
    assert OpenAt(res, peers, out, id, i + 1);
  }

  /** Starting the count earlier, where all is done, changes nothing. */
  lemma EarlierBase(m: Modules, res: Resolutions, peers: seq<ResolvedPeer>, base: nat, lower: nat, out: seq<NodeId>, id: NodeId)
    requires ComesNext(m, res, peers, base, out, id) && lower <= base
    requires forall j :: lower <= j < base && j < |out| ==> DoneAt(m, res, out, j)
    ensures ComesNext(m, res, peers, lower, out, id)
  {
    if k :| base <= k < |out| && NextOf(m, res, out, k, id) {
      assert NextOf(m, res, out, k, id);
    }
  }

  /** What follows a module's own peers follows the module. */
  lemma NextBelow(m: Modules, res: Resolutions, peers: seq<ResolvedPeer>, base: nat, out: seq<NodeId>, id: NodeId)
    requires base < |out| && out[base] in m.direct && ComesNext(m, res, m.direct[out[base]], base + 1, out, id)
    ensures ComesNext(m, res, peers, base, out, id)
  {
    if k :| base + 1 <= k < |out| && NextOf(m, res, out, k, id) {
      assert NextOf(m, res, out, k, id);
    } else {
      assert NextOf(m, res, out, base, id);
    }
  }

  lemma NextRest(m: Modules, res: Resolutions, peers: seq<ResolvedPeer>, base: nat, out: seq<NodeId>, id: NodeId)
    requires peers != [] && ComesNext(m, res, peers[1..], base, out, id)
    requires peers[0].id in res ==> res[peers[0].id].peer.id in out
    ensures ComesNext(m, res, peers, base, out, id)
  {
    if k :| base <= k < |out| && NextOf(m, res, out, k, id) {
      assert NextOf(m, res, out, k, id);
    } else {
      OpenRest(res, peers, out, id);
    }
  }

  /** All that is listed below a module is done once its peers are. */
  lemma BelowDone(m: Modules, res: Resolutions, out: seq<NodeId>, id: NodeId, longer: seq<NodeId>)
    requires Finished(m, res) && Range(out + [id]) <= m.direct.Keys && id in m.direct && Distinct(out + [id])
    requires Preorder(m, res, m.direct[id], out + [id]) <= longer
    ensures forall j :: |out| <= j < |Preorder(m, res, m.direct[id], out + [id])| ==> DoneAt(m, res, longer, j)
  {
    var below := Preorder(m, res, m.direct[id], out + [id]);
    PreorderCovers(m, res, m.direct[id], out + [id]);
    assert below[|out|] == id;
    forall j | |out| <= j < |below|
      ensures DoneAt(m, res, longer, j)
    {
      assert longer[j] == below[j];
      CoversLonger(res, m.direct[below[j]], below, longer);
    }
  }

  /** What follows the rest of the peers, once the first is listed with all below it, follows the peers. */
  lemma NextAfter(m: Modules, res: Resolutions, peers: seq<ResolvedPeer>, out: seq<NodeId>, longer: seq<NodeId>, next: NodeId)
    requires Finished(m, res) && peers != [] && peers[0].id in res
    requires var id := res[peers[0].id].peer.id;
      && Range(out + [id]) <= m.direct.Keys && Distinct(out + [id])
      && var below := Preorder(m, res, m.direct[id], out + [id]);
        below <= longer && ComesNext(m, res, peers[1..], |below|, longer, next)
    ensures ComesNext(m, res, peers, |out|, longer, next)
  {
    var id := res[peers[0].id].peer.id;
    var below := Preorder(m, res, m.direct[id], out + [id]);
    assert longer[|out|] == below[|out|] == id;
    BelowDone(m, res, out, id, longer);
    NextRest(m, res, peers, |below|, longer, next);
    EarlierBase(m, res, peers, |below|, |out|, longer, next);
  }

  lemma {:induction false} PreorderNext(m: Modules, res: Resolutions, peers: seq<ResolvedPeer>, out: seq<NodeId>, i: nat)
    requires Finished(m, res) && Range(out) <= m.direct.Keys && Distinct(out)
    requires |out| <= i < |Preorder(m, res, peers, out)|
    ensures var r := Preorder(m, res, peers, out); ComesNext(m, res, peers, |out|, r[..i], r[i])
    decreases m.direct.Keys - Range(out), |peers|
  {
    var r := Preorder(m, res, peers, out);
    if peers[0].id !in res || res[peers[0].id].peer.id in out {
      PreorderNext(m, res, peers[1..], out, i);
      assert forall x :: x in out ==> x in r[..i];
      NextRest(m, res, peers, |out|, r[..i], r[i]);
    } else {
      var id := res[peers[0].id].peer.id;
      assert id in m.direct.Keys - Range(out);
      RangeAppend(out, id);
      PreorderCovers(m, res, m.direct[id], out + [id]);
      var below := Preorder(m, res, m.direct[id], out + [id]);
      RangePrefix(out + [id], below);
      assert r == Preorder(m, res, peers[1..], below);
      assert below[|out|] == id && r[|out|] == id;
      if i == |out| {
        assert r[..i] == out;
        assert OpenAt(res, peers, out, id, 0);
      } else if i < |below| {
        PreorderNext(m, res, m.direct[id], out + [id], i);
        assert below[..i] == r[..i] && below[i] == r[i];
        NextBelow(m, res, peers, |out|, r[..i], r[i]);
      } else {
        PreorderNext(m, res, peers[1..], below, i);
        NextAfter(m, res, peers, out, r[..i], r[i]);
      }
    }
  }

  /** The list is in depth-first order: each module is the first peer still to be listed of the last module
      before it that has one, and a direct peer where none has. */
  lemma ListNext(m: Modules, res: Resolutions, peers: seq<ResolvedPeer>, i: nat)
    requires Finished(m, res) && Range([]) <= m.direct.Keys && i < |Preorder(m, res, peers, [])|
    ensures var r := Preorder(m, res, peers, []); ComesNext(m, res, peers, 0, r[..i], r[i])
  {
    PreorderNext(m, res, peers, [], i);
  }

  // ---------------------------------------------------------------- the order of visits

  /** `x` is first met among the roots (`k` is -1) or at visit `k`. */
  ghost predicate Born(p: Problem, trace: seq<Visit>, k: int, x: NodeId) {
    if k == -1 then x in Ids(p.roots) else 0 <= k < |trace| && NewAt(p, trace, k, x)
  }

  ghost function MetIn(p: Problem, trace: seq<Visit>, k: int): seq<NodeId>
    requires -1 <= k < |trace|
  {
    PeerIds(if k == -1 then p.roots else Succ(p.m, trace[k]))
  }

  /** `x` occurs before `y` does. */
  ghost predicate Ahead(ids: seq<NodeId>, x: NodeId, y: NodeId) { FirstAt(ids, x) < FirstAt(ids, y) }

  /** `x` is met first, or at the same visit but earlier in the list. */
  ghost predicate MetBetween(p: Problem, trace: seq<Visit>, x: NodeId, y: NodeId, a: int, b: int) {
    && -1 <= a <= b < |trace| && Born(p, trace, a, x) && Born(p, trace, b, y)
    && (a == b ==> Ahead(MetIn(p, trace, a), x, y))
  }

  ghost predicate MetEarlier(p: Problem, trace: seq<Visit>, x: NodeId, y: NodeId) {
    exists a, b :: MetBetween(p, trace, x, y, a, b)
  }

  ghost predicate IsBorn(p: Problem, trace: seq<Visit>, x: NodeId) {
    exists a :: -1 <= a < |trace| && Born(p, trace, a, x)
  }

  lemma BornLonger(p: Problem, trace: seq<Visit>, v: Visit, k: int, x: NodeId)
    requires -1 <= k < |trace| && Born(p, trace, k, x)
    ensures Born(p, trace + [v], k, x) && MetIn(p, trace + [v], k) == MetIn(p, trace, k)
  {
    if k >= 0 { assert (trace + [v])[..k] == trace[..k] && (trace + [v])[k] == trace[k]; }
  }

  lemma EarlierLonger(p: Problem, trace: seq<Visit>, v: Visit, x: NodeId, y: NodeId)
    requires MetEarlier(p, trace, x, y)
    ensures MetEarlier(p, trace + [v], x, y)
  {
    var a, b :| MetBetween(p, trace, x, y, a, b);
    BornLonger(p, trace, v, a, x);
    BornLonger(p, trace, v, b, y);
    assert MetBetween(p, trace + [v], x, y, a, b);
  }

  lemma IsBornLonger(p: Problem, trace: seq<Visit>, v: Visit, x: NodeId)
    requires IsBorn(p, trace, x)
    ensures IsBorn(p, trace + [v], x)
  {
    var a :| -1 <= a < |trace| && Born(p, trace, a, x);
    BornLonger(p, trace, v, a, x);
  }

  lemma AheadFirst(ids: seq<NodeId>, y: NodeId)
    requires ids != [] && ids[0] != y
    ensures Ahead(ids, ids[0], y)
  {}

  lemma AheadRest(ids: seq<NodeId>, x: NodeId, y: NodeId)
    requires ids != [] && x != ids[0] && y != ids[0] && Ahead(ids[1..], x, y)
    ensures Ahead(ids, x, y)
  {}

  /** What is queued keeps the order of the list it comes from. */
  lemma {:induction false} FreshOrder(peers: seq<ResolvedPeer>, visited: set<NodeId>, admits: NodeId -> bool, i: nat, j: nat)
    requires i < j < |Fresh(peers, visited, admits)|
    ensures var f := Fresh(peers, visited, admits); Ahead(PeerIds(peers), f[i].id, f[j].id)
    decreases peers
  {
    var later := visited + {peers[0].id};
    if peers[0].id in visited || !admits(peers[0].id) {
      RestOrder(peers, later, admits, i, j);
    } else {
      assert Fresh(peers, visited, admits) == [peers[0]] + Fresh(peers[1..], later, admits);
      if i > 0 {
        RestOrder(peers, later, admits, i - 1, j - 1);
      } else {
        FreshAdded(peers[1..], later, admits, j - 1);
        AheadFirst(PeerIds(peers), Fresh(peers[1..], later, admits)[j - 1].id);
      }
    }
  }

  lemma {:induction false} RestOrder(peers: seq<ResolvedPeer>, later: set<NodeId>, admits: NodeId -> bool, i: nat, j: nat)
    requires peers != [] && peers[0].id in later && i < j < |Fresh(peers[1..], later, admits)|
    ensures var f := Fresh(peers[1..], later, admits); Ahead(PeerIds(peers), f[i].id, f[j].id)
    decreases peers, 0
  {
    var f := Fresh(peers[1..], later, admits);
    FreshOrder(peers[1..], later, admits, i, j);
    FreshAdded(peers[1..], later, admits, i);
    FreshAdded(peers[1..], later, admits, j);
    assert PeerIds(peers)[1..] == PeerIds(peers[1..]);
    AheadRest(PeerIds(peers), f[i].id, f[j].id);
  }

  /** The ids in the order in which they were or will be visited. */
  ghost function Sequence(s: Search): seq<NodeId> {
    seq(|s.trace|, i requires 0 <= i < |s.trace| => s.trace[i].peer.id) + PeerIds(s.queue)
  }

  ghost predicate InMetOrder(p: Problem, s: Search) {
    && (forall i :: 0 <= i < |Sequence(s)| ==> IsBorn(p, s.trace, Sequence(s)[i]))
    && (forall i, j :: 0 <= i < j < |Sequence(s)| ==> MetEarlier(p, s.trace, Sequence(s)[i], Sequence(s)[j]))
  }

  lemma SequenceGrows(s: Search, t: Search, v: Visit, added: seq<ResolvedPeer>)
    requires s.queue != [] && v.peer == s.queue[0] && t.trace == s.trace + [v] && t.queue == s.queue[1..] + added
    ensures Sequence(t) == Sequence(s) + PeerIds(added)
  {}

  /** A peer that is queued now is first met now. */
  lemma AddedBorn(p: Problem, s: Search, v: Visit, admits: NodeId -> bool, i: nat)
    requires VisitedExact(p, s) && i < |Fresh(Succ(p.m, v), Seen(s.visited, v), admits)|
    ensures Born(p, s.trace + [v], |s.trace|, Fresh(Succ(p.m, v), Seen(s.visited, v), admits)[i].id)
  {
    FreshAdded(Succ(p.m, v), Seen(s.visited, v), admits, i);
    assert (s.trace + [v])[..|s.trace|] == s.trace;
  }

  lemma InOrderNext(p: Problem, s: Search, t: Search, v: Visit, admits: NodeId -> bool, i: nat, j: nat)
    requires VisitedExact(p, s) && InMetOrder(p, s) && t.trace == s.trace + [v]
    requires Sequence(t) == Sequence(s) + PeerIds(Fresh(Succ(p.m, v), Seen(s.visited, v), admits))
    requires i < j < |Sequence(t)|
    ensures MetEarlier(p, t.trace, Sequence(t)[i], Sequence(t)[j])
  {
    var n, k := |Sequence(s)|, |s.trace|;
    var x, y := Sequence(t)[i], Sequence(t)[j];
    if j < n {
      EarlierLonger(p, s.trace, v, x, y);
    } else {
      AddedBorn(p, s, v, admits, j - n);
      if i < n {
        assert IsBorn(p, s.trace, Sequence(s)[i]);
        var a :| -1 <= a < k && Born(p, s.trace, a, x);
        BornLonger(p, s.trace, v, a, x);
        assert MetBetween(p, t.trace, x, y, a, k);
      } else {
        AddedBorn(p, s, v, admits, i - n);
        FreshOrder(Succ(p.m, v), Seen(s.visited, v), admits, i - n, j - n);
        assert MetBetween(p, t.trace, x, y, k, k);
      }
    }
  }

  lemma BornNext(p: Problem, s: Search, t: Search, v: Visit, admits: NodeId -> bool, i: nat)
    requires VisitedExact(p, s) && InMetOrder(p, s) && t.trace == s.trace + [v]
    requires Sequence(t) == Sequence(s) + PeerIds(Fresh(Succ(p.m, v), Seen(s.visited, v), admits))
    requires i < |Sequence(t)|
    ensures IsBorn(p, t.trace, Sequence(t)[i])
  {
    if i < |Sequence(s)| {
      IsBornLonger(p, s.trace, v, Sequence(s)[i]);
    } else {
      AddedBorn(p, s, v, admits, i - |Sequence(s)|);
    }
  }

  lemma InOrderVisit(p: Problem, s: Search)
    requires Inv(p, s) && s.queue != [] && VisitedExact(p, s) && InMetOrder(p, s)
    ensures InMetOrder(p, VisitFront(p, s))
  {
    var t := VisitFront(p, s);
    var v, admits := t.trace[|s.trace|], Admits(p, t.explicit);
    SequenceGrows(s, t, v, Fresh(Succ(p.m, v), Seen(s.visited, v), admits));
    forall i | 0 <= i < |Sequence(t)|
      ensures IsBorn(p, t.trace, Sequence(t)[i])
    {
      BornNext(p, s, t, v, admits, i);
    }
    forall i, j | 0 <= i < j < |Sequence(t)|
      ensures MetEarlier(p, t.trace, Sequence(t)[i], Sequence(t)[j])
    {
      InOrderNext(p, s, t, v, admits, i, j);
    }
  }

  lemma {:induction false} RunInOrder(p: Problem, s: Search)
    requires Inv(p, s) && VisitedExact(p, s) && InMetOrder(p, s)
    ensures InMetOrder(p, Run(p, s))
    decreases |p.m.direct.Keys| - s.nodesVisited
  {
    if s.queue != [] {
      var n, t := RunStep(p, s);
      assert Sequence(n) == Sequence(s);
      assert VisitedExact(p, n);
      InOrderVisit(p, n);
      VisitedStep(p, n);
      RunInOrder(p, t);
    }
  }

  lemma RootBorn(p: Problem, admits: NodeId -> bool, i: nat)
    requires i < |Fresh(p.roots, {}, admits)|
    ensures Born(p, [], -1, Fresh(p.roots, {}, admits)[i].id)
  {
    FreshAdded(p.roots, {}, admits, i);
  }

  lemma RootsMet(p: Problem, admits: NodeId -> bool, i: nat, j: nat)
    requires i < j < |Fresh(p.roots, {}, admits)|
    ensures var f := Fresh(p.roots, {}, admits); MetEarlier(p, [], f[i].id, f[j].id)
  {
    var f := Fresh(p.roots, {}, admits);
    RootBorn(p, admits, i);
    RootBorn(p, admits, j);
    FreshOrder(p.roots, {}, admits, i, j);
    assert MetBetween(p, [], f[i].id, f[j].id, -1, -1);
  }

  lemma RootsInOrder(p: Problem, s: Search, admits: NodeId -> bool)
    requires s.trace == [] && s.queue == Fresh(p.roots, {}, admits)
    ensures InMetOrder(p, s)
  {
    assert Sequence(s) == PeerIds(s.queue);
    forall i | 0 <= i < |Sequence(s)|
      ensures IsBorn(p, s.trace, Sequence(s)[i])
    {
      RootBorn(p, admits, i);
    }
    forall i, j | 0 <= i < j < |Sequence(s)|
      ensures MetEarlier(p, s.trace, Sequence(s)[i], Sequence(s)[j])
    {
      RootsMet(p, admits, i, j);
    }
  }

  /** Peers are visited in the order in which they are first met; those met at one visit, and so at one
      distance, in the order in which they are declared. */
  lemma VisitOrder(p: Problem, i: nat, j: nat)
    requires Closed(p) && i < j < |Final(p).trace|
    ensures MetEarlier(p, Final(p).trace, Final(p).trace[i].peer.id, Final(p).trace[j].peer.id)
  {
    RootsInOrder(p, Start(p), Admits(p, EMPTY));
    StartSound(p);
    RunInOrder(p, Start(p));
    var s := Final(p);
    assert Sequence(s)[i] == s.trace[i].peer.id && Sequence(s)[j] == s.trace[j].peer.id;
  }
}
