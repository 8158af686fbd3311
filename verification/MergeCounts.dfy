/** The arithmetic of merging closures, for any number of paths. */
module MergeCounts {
  import opened ModuleGraph
  import opened PeersClosures

  ghost function CountIn(c: Closure, u: NodeId): nat { if u in c.stats then c.stats[u].pathCount else 0 }

  ghost predicate MarkedIn(c: Closure, u: NodeId) { u in c.stats ==> c.stats[u].excluded }

  /** Merging adds path counts, those of the peers times `k` and `k` for the node itself, modulo 2^31; a
      peer stays excluded only where all parts exclude it, and the node never is. */
  lemma MergedCounts(into: Closure, node: NodeId, peers: Closure, k: nat, u: NodeId)
    requires Listed(into) && Listed(peers)
    ensures var c := Merged(into, node, peers, k);
      && (u in c.stats <==> u == node || u in into.stats || u in peers.stats)
      && CountIn(c, u) % LIMIT31 == (CountIn(into, u) + CountIn(peers, u) * k + (if u == node then k else 0)) % LIMIT31
      && (u in c.stats ==> (c.stats[u].excluded <==> u != node && MarkedIn(into, u) && MarkedIn(peers, u)))
  {
    var c := MergePeers(into, peers, k, |peers.topSort|);
    PeersCounts(into, peers, k, u);
    var a, b := CountIn(c, u), CountIn(into, u) + CountIn(peers, u) * k;
    if u == node { AddSame(a, b, k); }
    Wrapped(a + k);
    Wrapped(k);
  }

  lemma PeersCounts(into: Closure, peers: Closure, k: nat, u: NodeId)
    requires Listed(into) && Listed(peers)
    ensures var c := MergePeers(into, peers, k, |peers.topSort|);
      && (u in c.stats <==> u in into.stats || u in peers.stats)
      && CountIn(c, u) % LIMIT31 == (CountIn(into, u) + CountIn(peers, u) * k) % LIMIT31
      && (u in c.stats ==> (c.stats[u].excluded <==> MarkedIn(into, u) && MarkedIn(peers, u)))
  {
    MergePeersEntry(into, peers, k, |peers.topSort|, u);
    assert peers.topSort[..|peers.topSort|] == peers.topSort;
    var c := MergePeers(into, peers, k, |peers.topSort|);
    var a, b := CountIn(into, u), CountIn(peers, u) * k;
    if u !in peers.stats {
      assert CountIn(c, u) == a && b == 0;
    } else if u !in into.stats {
      assert CountIn(c, u) == b % LIMIT31 && a == 0;
      Wrapped(b);
    } else {
      assert CountIn(c, u) == (a + b % LIMIT31) % LIMIT31;
      Wrapped(a + b % LIMIT31);
      Wrapped(b);
      AddSame(b % LIMIT31, b, a);
    }
  }

  lemma Wrapped(a: nat)
    ensures a % LIMIT31 % LIMIT31 == a % LIMIT31
  {}

  lemma AddSame(a: nat, b: nat, k: nat)
    requires a % LIMIT31 == b % LIMIT31
    ensures (a + k) % LIMIT31 == (b + k) % LIMIT31
  {}
}
