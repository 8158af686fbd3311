/** The preorder list of accepted modules. */
module PreorderSort {
  import opened ModuleGraph
  import opened ConflictResolver
  import opened ConflictSearch

  type Resolutions = map<NodeId, ResolutionInfo>

  /** Every resolution is a finished module. */
  ghost predicate Finished(m: Modules, res: Resolutions) {
    forall id :: id in res ==> res[id].peer.id in m.direct
  }

  function Range(s: seq<NodeId>): set<NodeId> { set i | 0 <= i < |s| :: s[i] }

  lemma RangeAppend(s: seq<NodeId>, x: NodeId)
    ensures Range(s + [x]) == Range(s) + {x}
  {
    var t := s + [x];
    forall y | y in Range(s) + {x}
      ensures y in Range(t)
    {
      if y == x { assert t[|s|] == x; } else {
        var i :| 0 <= i < |s| && s[i] == y;
        assert t[i] == y;
      }
    }
  }

  lemma RangePrefix(s: seq<NodeId>, t: seq<NodeId>)
    requires s <= t
    ensures Range(s) <= Range(t)
  {
    forall y | y in Range(s)
      ensures y in Range(t)
    {
      var i :| 0 <= i < |s| && s[i] == y;
      assert t[i] == y;
    }
  }

  // ---------------------------------------------------------------- reference

  /** Depth-first preorder: each peer's resolution, once, followed by what it leads to. */
  ghost function Preorder(m: Modules, res: Resolutions, peers: seq<ResolvedPeer>, out: seq<NodeId>): (r: seq<NodeId>)
    requires Finished(m, res) && Range(out) <= m.direct.Keys
    ensures out <= r && Range(r) <= m.direct.Keys
    decreases m.direct.Keys - Range(out), |peers|
  {
    if peers == [] then out
    else if peers[0].id !in res || res[peers[0].id].peer.id in out then Preorder(m, res, peers[1..], out)
    else
      var id := res[peers[0].id].peer.id;
      assert id in m.direct.Keys - Range(out);
      RangeAppend(out, id);
      var below := Preorder(m, res, m.direct[id], out + [id]);
      RangePrefix(out + [id], below);
      assert below[|out|] == id;
      Preorder(m, res, peers[1..], below)
  }

  // ---------------------------------------------------------------- the program

  /** What remains to be listed when `stack` holds the unfinished lists, innermost last. */
  ghost function Unwind(m: Modules, res: Resolutions, stack: seq<seq<ResolvedPeer>>, out: seq<NodeId>): seq<NodeId>
    requires Finished(m, res) && Range(out) <= m.direct.Keys
  {
    if stack == [] then out
    else Unwind(m, res, stack[..|stack| - 1], Preorder(m, res, stack[|stack| - 1], out))
  }

  ghost function Weight(stack: seq<seq<ResolvedPeer>>): nat {
    if stack == [] then 0 else Weight(stack[..|stack| - 1]) + |stack[|stack| - 1]| + 1
  }

  lemma UnwindPush(m: Modules, res: Resolutions, stack: seq<seq<ResolvedPeer>>, top: seq<ResolvedPeer>, out: seq<NodeId>)
    requires Finished(m, res) && Range(out) <= m.direct.Keys
    ensures Unwind(m, res, stack + [top], out) == Unwind(m, res, stack, Preorder(m, res, top, out))
    ensures Weight(stack + [top]) == Weight(stack) + |top| + 1
  {
    assert (stack + [top])[..|stack|] == stack;
  }

  /** Lists one resolution: into `out`, with what it leads to left on the stack. */
  lemma UnwindVisit(m: Modules, res: Resolutions, below: seq<seq<ResolvedPeer>>, top: seq<ResolvedPeer>, out: seq<NodeId>)
    requires Finished(m, res) && Range(out) <= m.direct.Keys
    requires top != [] && top[0].id in res && res[top[0].id].peer.id !in out
    ensures var id := res[top[0].id].peer.id;
      && Range(out + [id]) <= m.direct.Keys
      && Unwind(m, res, below + [top], out) == Unwind(m, res, below + [top[1..]] + [m.direct[id]], out + [id])
  {
    var id := res[top[0].id].peer.id;
    RangeAppend(out, id);
    UnwindPush(m, res, below, top, out);
    UnwindPush(m, res, below + [top[1..]], m.direct[id], out + [id]);
    UnwindPush(m, res, below, top[1..], Preorder(m, res, m.direct[id], out + [id]));
  }

  method Sort(m: Modules, res: Resolutions, peers: seq<ResolvedPeer>) returns (out: seq<NodeId>)
    requires Finished(m, res)
    ensures Range([]) <= m.direct.Keys && out == Preorder(m, res, peers, [])
  {
    var stack := [peers];
    out := [];
    assert Unwind(m, res, stack, out) == Preorder(m, res, peers, []) by { UnwindPush(m, res, [], peers, []); assert [] + [peers] == stack; }
    while stack != []
      invariant Range(out) <= m.direct.Keys
      invariant Unwind(m, res, stack, out) == Preorder(m, res, peers, [])
      decreases m.direct.Keys - Range(out), Weight(stack)
    {
      ghost var was := stack;
      var n := |stack| - 1;
      var top, below := stack[n], stack[..n];
      assert stack == below + [top];
      UnwindPush(m, res, below, top, out);
      if top == [] {
        stack := below;
        continue;
      }
      UnwindPush(m, res, below, top[1..], out);
      var cur := top[0];
      stack := below + [top[1..]];
      if cur.id !in res {
        continue;
      }
      var id := res[cur.id].peer.id;
      if id in out {
        continue;
      }
      UnwindVisit(m, res, below, top, out);
      UnwindPush(m, res, stack, m.direct[id], out + [id]);
      RangeAppend(out, id);
      assert id in m.direct.Keys - Range(out);
      out := out + [id];
      if m.direct[id] != [] {
        stack := stack + [m.direct[id]];
      }
    }
  }

  // ---------------------------------------------------------------- what is listed

  /** `id` is what some of the peers resolve to. */
  ghost predicate ResolvesTo(res: Resolutions, peers: seq<ResolvedPeer>, id: NodeId) {
    exists i :: 0 <= i < |peers| && peers[i].id in res && res[peers[i].id].peer.id == id
  }

  lemma ResolvesFirst(res: Resolutions, peers: seq<ResolvedPeer>, id: NodeId)
    requires peers != []
    ensures ResolvesTo(res, peers, id) <==>
      (peers[0].id in res && res[peers[0].id].peer.id == id) || ResolvesTo(res, peers[1..], id)
  {
    if i :| 0 <= i < |peers| && peers[i].id in res && res[peers[i].id].peer.id == id {
      if i > 0 { assert peers[1..][i - 1].id in res; }
    }
    if i :| 0 <= i < |peers[1..]| && peers[1..][i].id in res && res[peers[1..][i].id].peer.id == id {
      assert peers[i + 1].id in res;
    }
  }

  /** Everything a list resolves to is listed. */
  ghost predicate Covers(res: Resolutions, peers: seq<ResolvedPeer>, r: seq<NodeId>) {
    forall id :: ResolvesTo(res, peers, id) ==> id in r
  }

  lemma CoversLonger(res: Resolutions, peers: seq<ResolvedPeer>, r: seq<NodeId>, longer: seq<NodeId>)
    requires Covers(res, peers, r) && r <= longer
    ensures Covers(res, peers, longer)
  {}

  /** What is added is new, and everything that the peers or an added module resolve to is listed. */
  lemma {:induction false} PreorderCovers(m: Modules, res: Resolutions, peers: seq<ResolvedPeer>, out: seq<NodeId>)
    requires Finished(m, res) && Range(out) <= m.direct.Keys && Distinct(out)
    ensures var r := Preorder(m, res, peers, out);
      && Distinct(r) && Covers(res, peers, r)
      && forall k :: |out| <= k < |r| ==> r[k] in m.direct && Covers(res, m.direct[r[k]], r)
    decreases m.direct.Keys - Range(out), |peers|
  {
    if peers != [] {
      forall id
        ensures ResolvesTo(res, peers, id) <==>
          (peers[0].id in res && res[peers[0].id].peer.id == id) || ResolvesTo(res, peers[1..], id)
      {
        ResolvesFirst(res, peers, id);
      }
      if peers[0].id !in res || res[peers[0].id].peer.id in out {
        PreorderCovers(m, res, peers[1..], out);
      } else {
        var id := res[peers[0].id].peer.id;
        assert id in m.direct.Keys - Range(out);
        RangeAppend(out, id);
        PreorderCovers(m, res, m.direct[id], out + [id]);
        var below := Preorder(m, res, m.direct[id], out + [id]);
        RangePrefix(out + [id], below);
        PreorderCovers(m, res, peers[1..], below);
        var r := Preorder(m, res, peers[1..], below);
        assert r[|out|] == below[|out|] == id;
        forall k | |out| <= k < |r|
          ensures r[k] in m.direct && Covers(res, m.direct[r[k]], r)
        {
          if k < |below| {
            assert r[k] == below[k];
            CoversLonger(res, m.direct[r[k]], below, r);
          }
        }
      }
    }
  }

  /** A chain of resolutions: each is what a direct peer of the one before resolves to. */
  ghost predicate Chain(m: Modules, res: Resolutions, peers: seq<ResolvedPeer>, chain: seq<NodeId>)
    decreases |chain|
  {
    && chain != [] && chain[0] in m.direct && ResolvesTo(res, peers, chain[0])
    && (|chain| > 1 ==> Chain(m, res, m.direct[chain[0]], chain[1..]))
  }

  ghost predicate Reachable(m: Modules, res: Resolutions, peers: seq<ResolvedPeer>, id: NodeId) {
    exists chain :: Chain(m, res, peers, chain) && chain[|chain| - 1] == id
  }

  lemma ReachableBelow(m: Modules, res: Resolutions, peers: seq<ResolvedPeer>, top: NodeId, id: NodeId)
    requires top in m.direct && ResolvesTo(res, peers, top) && Reachable(m, res, m.direct[top], id)
    ensures Reachable(m, res, peers, id)
  {
    var chain :| Chain(m, res, m.direct[top], chain) && chain[|chain| - 1] == id;
    assert ([top] + chain)[1..] == chain;
    assert Chain(m, res, peers, [top] + chain);
  }

  lemma ReachableRest(m: Modules, res: Resolutions, peers: seq<ResolvedPeer>, id: NodeId)
    requires peers != [] && Reachable(m, res, peers[1..], id)
    ensures Reachable(m, res, peers, id)
  {
    var chain :| Chain(m, res, peers[1..], chain) && chain[|chain| - 1] == id;
    ResolvesFirst(res, peers, chain[0]);
    assert Chain(m, res, peers, chain);
  }

  lemma {:induction false} PreorderReachable(m: Modules, res: Resolutions, peers: seq<ResolvedPeer>, out: seq<NodeId>, k: nat)
    requires Finished(m, res) && Range(out) <= m.direct.Keys
    requires |out| <= k < |Preorder(m, res, peers, out)|
    ensures Reachable(m, res, peers, Preorder(m, res, peers, out)[k])
    decreases m.direct.Keys - Range(out), |peers|
  {
    var r := Preorder(m, res, peers, out);
    if peers[0].id !in res || res[peers[0].id].peer.id in out {
      PreorderReachable(m, res, peers[1..], out, k);
      ReachableRest(m, res, peers, r[k]);
    } else {
      var id := res[peers[0].id].peer.id;
      assert id in m.direct.Keys - Range(out);
      RangeAppend(out, id);
      var below := Preorder(m, res, m.direct[id], out + [id]);
      RangePrefix(out + [id], below);
      assert ResolvesTo(res, peers, id);
      if k == |out| {
        assert r[k] == below[k] == id;
        assert Chain(m, res, peers, [id]);
      } else if k < |below| {
        assert r[k] == below[k];
        PreorderReachable(m, res, m.direct[id], out + [id], k);
        ReachableBelow(m, res, peers, id, r[k]);
      } else {
        PreorderReachable(m, res, peers[1..], below, k);
        ReachableRest(m, res, peers, r[k]);
      }
    }
  }

  lemma {:induction false} ChainListed(m: Modules, res: Resolutions, peers: seq<ResolvedPeer>, r: seq<NodeId>, chain: seq<NodeId>)
    requires Chain(m, res, peers, chain) && Covers(res, peers, r)
    requires forall k :: 0 <= k < |r| ==> r[k] in m.direct && Covers(res, m.direct[r[k]], r)
    ensures chain[|chain| - 1] in r
    decreases |chain|
  {
    if |chain| > 1 {
      var k :| 0 <= k < |r| && r[k] == chain[0];
      ChainListed(m, res, m.direct[chain[0]], r, chain[1..]);
    }
  }

  /** The list holds exactly the resolutions reachable from the direct peers, each once. */
  lemma ListExact(m: Modules, res: Resolutions, peers: seq<ResolvedPeer>)
    requires Finished(m, res)
    ensures Range([]) <= m.direct.Keys
    ensures var r := Preorder(m, res, peers, []); Distinct(r) && forall id :: id in r <==> Reachable(m, res, peers, id)
  {
    var r := Preorder(m, res, peers, []);
    PreorderCovers(m, res, peers, []);
    forall id
      ensures id in r <==> Reachable(m, res, peers, id)
    {
      if id in r {
        var k :| 0 <= k < |r| && r[k] == id;
        PreorderReachable(m, res, peers, [], k);
      }
      if Reachable(m, res, peers, id) {
        var chain :| Chain(m, res, peers, chain) && chain[|chain| - 1] == id;
        ChainListed(m, res, peers, r, chain);
      }
    }
  }
}
