/** What a mark still means when path counts exceed 31 bits. */
module WrappedMarks {
  import opened ModuleGraph
  import opened PeersClosures
  import opened PeersClosureTheory

  // ---------------------------------------------------------------- arithmetic modulo 2^31

  function Turns(k: int): int { k * LIMIT31 }

  /** Equal up to multiples of 2^31. */
  ghost predicate Same31(a: int, b: int) {
    exists k {:trigger Turns(k)} :: a == b + Turns(k)
  }

  lemma TurnsBy(a: int, b: int, k: int)
    requires a == b + k * LIMIT31
    ensures Same31(a, b)
  {
    assert a == b + Turns(k);
  }

  lemma Reflexive(a: int)
    ensures Same31(a, a)
  {
    TurnsBy(a, a, 0);
  }

  lemma Wrapped31(a: nat)
    ensures Same31(a % LIMIT31, a)
  {
    TurnsBy(a % LIMIT31, a, -(a / LIMIT31));
  }

  lemma Wrapped32(a: int)
    ensures Same31(a % LIMIT32, a)
  {
    TurnsBy(a % LIMIT32, a, -2 * (a / LIMIT32));
  }

  lemma Chained(a: int, b: int, c: int)
    requires Same31(a, b) && Same31(b, c)
    ensures Same31(a, c)
  {
    var k :| a == b + Turns(k);
    var m :| b == c + Turns(m);
    TurnsBy(a, c, k + m);
  }

  lemma Sums(a: int, b: int, c: int, d: int)
    requires Same31(a, b) && Same31(c, d)
    ensures Same31(a + c, b + d) && Same31(a - c, b - d)
  {
    var k :| a == b + Turns(k);
    var m :| c == d + Turns(m);
    TurnsBy(a + c, b + d, k + m);
    TurnsBy(a - c, b - d, k - m);
  }

  lemma Products(a: int, b: int, c: int, d: int)
    requires Same31(a, b) && Same31(c, d)
    ensures Same31(a * c, b * d)
  {
    var k :| a == b + Turns(k);
    var m :| c == d + Turns(m);
    ProductTurns(a, b, c, d, k, m);
    TurnsBy(a * c, b * d, k * c + m * b);
  }

  lemma ProductTurns(a: int, b: int, c: int, d: int, k: int, m: int)
    requires a == b + k * LIMIT31 && c == d + m * LIMIT31
    ensures a * c == b * d + (k * c + m * b) * LIMIT31
  {
    calc {
      a * c;
      (b + k * LIMIT31) * c;
      b * c + (k * LIMIT31) * c;
      { assert b * c == b * (d + m * LIMIT31) == b * d + (m * b) * LIMIT31; }
      b * d + (m * b) * LIMIT31 + (k * c) * LIMIT31;
    }
  }

  lemma MultipleOf(a: nat, b: int)
    requires Same31(a + b, b)
    ensures a % LIMIT31 == 0
  {
    var k :| a + b == b + Turns(k);
  }

  // ---------------------------------------------------------------- counters up to multiples of 2^31

  /** Closures as the collector stores them, whatever the path counts are. */
  ghost predicate Stored(g: Dag, v: NodeId, c: Closure, closures: map<NodeId, Closure>) {
    && Represents(g, v, g.Degree(v), c)
    && forall w :: w in c.stats ==> w in closures && Represents(g, w, g.Degree(w), closures[w])
  }

  lemma EntrySame(g: Dag, v: NodeId, c: Closure, u: NodeId)
    requires Represents(g, v, g.Degree(v), c)
    ensures if u in c.stats then Same31(c.stats[u].pathCount, Paths(g, v, u)) else Paths(g, v, u) == 0
  {
    assert Counts(g, v, g.Degree(v), c, u);
    Wrapped31(Paths(g, v, u));
  }

  ghost predicate CountersSame(g: Dag, blocked: NodeId -> bool, v: NodeId, done: seq<NodeId>, ex: map<NodeId, nat>) {
    forall u :: CounterSame(g, blocked, v, done, ex, u)
  }

  ghost predicate CounterSame(g: Dag, blocked: NodeId -> bool, v: NodeId, done: seq<NodeId>, ex: map<NodeId, nat>, u: NodeId) {
    Same31(Counted(ex, u), ExpectedCount(g, blocked, v, done, u))
  }

  /** One visit: the newly excluded paths and what they add to another counter. */
  lemma SpreadSame(ex: map<NodeId, nat>, peers: map<NodeId, ClosureStats>, paths: nat, open: nat, u: NodeId, below: nat)
    requires Same31(paths, open) && (if u in peers then Same31(peers[u].pathCount, below) else below == 0)
    ensures Same31(Counted(Spread(ex, paths, peers), u), Counted(ex, u) + open * below)
  {
    Reflexive(Counted(ex, u));
    if u in peers {
      Products(paths, open, peers[u].pathCount, below);
      var sum := Counted(ex, u) + paths * peers[u].pathCount;
      Sums(Counted(ex, u), Counted(ex, u), paths * peers[u].pathCount, open * below);
      Wrapped32(sum);
      Chained(sum % LIMIT32, sum, Counted(ex, u) + open * below);
    } else {
      assert open * below == 0;
    }
  }

  lemma PathsSame(ex: map<NodeId, nat>, id: NodeId, count: nat, total: nat, counted: nat)
    requires Same31(count, total) && Same31(Counted(ex, id), counted) && counted <= total
    ensures var paths := if id in ex then (count - ex[id]) % LIMIT32 else count;
      Same31(paths, total - counted)
  {
    Sums(count, total, Counted(ex, id), counted);
    if id in ex {
      Wrapped32(count - ex[id]);
      Chained((count - ex[id]) % LIMIT32, count - ex[id], total - counted);
    }
  }

  lemma ExcludedNodeSame(ex: map<NodeId, nat>, peers: map<NodeId, ClosureStats>, id: NodeId, count: nat, open: nat, u: NodeId, below: nat)
    requires id !in peers && id != u && (if u in peers then Same31(peers[u].pathCount, below) else below == 0)
    requires Same31(if id in ex then (count - ex[id]) % LIMIT32 else count, open)
    ensures Same31(Counted(ExcludedNode(ex, id, count, peers), u), Counted(ex, u) + open * below)
  {
    var paths := if id in ex then (count - ex[id]) % LIMIT32 else count;
    SpreadSame(ex[id := count], peers, paths, open, u, below);
    if paths == 0 {
      Reflexive(below);
      Products(0, open, below, below);
      Reflexive(Counted(ex, u));
      Sums(Counted(ex, u), Counted(ex, u), 0, open * below);
    }
  }

  lemma ExcludedItself(ex: map<NodeId, nat>, peers: map<NodeId, ClosureStats>, id: NodeId, count: nat)
    requires id !in peers
    ensures Counted(ExcludedNode(ex, id, count, peers), id) == count
  {}

  lemma CounterStep(g: Dag, blocked: NodeId -> bool, v: NodeId, c: Closure, closures: map<NodeId, Closure>, k: nat, ex: map<NodeId, nat>, u: NodeId)
    requires Stored(g, v, c, closures) && k < |c.topSort| && blocked(c.topSort[k])
    requires CountersSame(g, blocked, v, c.topSort[k + 1..], ex)
    ensures var id := c.topSort[k];
      CounterSame(g, blocked, v, c.topSort[k..], ExcludedNode(ex, id, c.stats[id].pathCount, closures[id].stats), u)
  {
    var id, done := c.topSort[k], c.topSort[k + 1..];
    var count, peers := c.stats[id].pathCount, closures[id].stats;
    EntrySame(g, v, c, id);
    NoCycle(g, id);
    EntrySame(g, id, closures[id], id);
    var open, below := OpenPaths(g, blocked, v, id), Paths(g, id, u);
    assert id !in peers by { assert Counts(g, id, g.Degree(id), closures[id], id); }
    var added := Product(open, below);
    ExpectedStep(g, blocked, v, c.topSort, k, u, added);
    if u == id {
      ExcludedItself(ex, peers, id, count);
    } else {
      assert CounterSame(g, blocked, v, done, ex, id) && CounterSame(g, blocked, v, done, ex, u);
      NewlyExcluded(g, blocked, v, c, k);
      PathsSame(ex, id, count, Paths(g, v, id), ExpectedCount(g, blocked, v, done, id));
      EntrySame(g, id, closures[id], u);
      ExcludedNodeSame(ex, peers, id, count, open, u, below);
      Reflexive(added);
      Sums(Counted(ex, u), ExpectedCount(g, blocked, v, done, u), added, added);
      Chained(Counted(ExcludedNode(ex, id, count, peers), u), Counted(ex, u) + added, ExpectedCount(g, blocked, v, done, u) + added);
    }
  }

  /** Whatever wraps, at every step the counters are right up to multiples of 2^31. */
  lemma {:induction false} CountersAlwaysSame(g: Dag, blocked: NodeId -> bool, v: NodeId, c: Closure, closures: map<NodeId, Closure>, k: nat)
    requires Stored(g, v, c, closures) && k <= |c.topSort|
    ensures CountersSame(g, blocked, v, c.topSort[k..], ExcludedPaths(c, blocked, closures, k))
    decreases |c.topSort| - k
  {
    var now := ExcludedPaths(c, blocked, closures, k);
    if k < |c.topSort| {
      CountersAlwaysSame(g, blocked, v, c, closures, k + 1);
      var before := ExcludedPaths(c, blocked, closures, k + 1);
      forall u
        ensures CounterSame(g, blocked, v, c.topSort[k..], now, u)
      {
        if blocked(c.topSort[k]) {
          CounterStep(g, blocked, v, c, closures, k, before, u);
        } else {
          assert CounterSame(g, blocked, v, c.topSort[k + 1..], before, u);
          UnblockedStep(g, blocked, v, c.topSort, k, u);
        }
      }
    } else {
      forall u
        ensures CounterSame(g, blocked, v, c.topSort[k..], now, u)
      {
        assert c.topSort[k..] == [];
        Reflexive(0);
      }
    }
  }

  /** A mark means: it was there, or all paths are blocked, or 2^31 divides the number of open ones. */
  lemma MarkedMeans(g: Dag, blocked: NodeId -> bool, v: NodeId, c: Closure, closures: map<NodeId, Closure>, u: NodeId)
    requires Stored(g, v, c, closures) && u in c.stats && Excluding(c, blocked, closures).stats[u].excluded
    ensures c.stats[u].excluded || AllBlocked(g, blocked, v, u) || OpenPaths(g, blocked, v, u) % LIMIT31 == 0
  {
    var ex := ExcludedPaths(c, blocked, closures, 0);
    AllBlockedByCount(g, blocked, v, u);
    if !c.stats[u].excluded && !blocked(u) {
      CountersAlwaysSame(g, blocked, v, c, closures, 0);
      assert c.topSort[0..] == c.topSort;
      assert CounterSame(g, blocked, v, c.topSort, ex, u);
      AllVisited(g, blocked, v, c, u);
      EntrySame(g, v, c, u);
      MarkedArithmetic(ex[u], ExpectedCount(g, blocked, v, c.topSort, u), Paths(g, v, u), OpenPaths(g, blocked, v, u));
    }
  }

  lemma MarkedArithmetic(count: nat, expected: nat, paths: nat, open: nat)
    requires Same31(count, expected) && Same31(count, paths) && paths == open + expected
    ensures open % LIMIT31 == 0
  {
    var k :| count == expected + Turns(k);
    var m :| count == paths + Turns(m);
    TurnsBy(open + expected, expected, k - m);
    MultipleOf(open, expected);
  }
}
