/** What propagation computes, and the walk over the collected directories. */
module IncDirsTheory {
  import opened ModuleGraph
  import opened IncDirs

  // ---------------------------------------------------------------- a transitive closure

  /** Nothing has been propagated yet. */
  ghost predicate Initial(g: Dag, own: map<NodeId, ByLang>) {
    && g.direct.Keys <= own.Keys
    && forall v, l :: v in own && l in own[v] ==> own[v][l].globalPropagated == [] == own[v][l].userGlobalPropagated
  }

  /** One propagation, seen from a single directory. */
  lemma PropagatedAt(src: ByLang, dst: ByLang, l: Lang, x: Dir)
    ensures var (s, d, r) := (At(src, l), At(dst, l), At(AllPropagated(src, dst), l));
      && (r.localUserGlobal, r.userGlobal, r.global) == (d.localUserGlobal, d.userGlobal, d.global)
      && (x in r.globalPropagated <==> x in d.globalPropagated || x in s.global || x in s.globalPropagated)
      && (x in r.userGlobalPropagated <==> x in d.userGlobalPropagated || x in s.userGlobal || x in s.globalPropagated)
  {
    var s, d := At(src, l), At(dst, l);
    ExtendedMembers(d.userGlobalPropagated, s.userGlobal, x);
    ExtendedMembers(Extended(d.userGlobalPropagated, s.userGlobal), s.globalPropagated, x);
    ExtendedMembers(d.globalPropagated, s.global, x);
    ExtendedMembers(Extended(d.globalPropagated, s.global), s.globalPropagated, x);
  }

  /** What a module declares itself is not touched. */
  lemma {:induction false} OwnKept(base: ByLang, sources: seq<ByLang>, n: nat, l: Lang)
    requires n <= |sources|
    ensures var (b, o) := (At(Collected(base, sources, n), l), At(base, l));
      (b.localUserGlobal, b.userGlobal, b.global) == (o.localUserGlobal, o.userGlobal, o.global)
  {
    if n > 0 {
      OwnKept(base, sources, n - 1, l);
      PropagatedAt(sources[n - 1], Collected(base, sources, n - 1), l, "");
    }
  }

  /** What the sources bring, seen from a single directory. */
  ghost predicate FromGlobal(base: ByLang, sources: seq<ByLang>, n: nat, l: Lang, x: Dir)
    requires n <= |sources|
  {
    if n == 0 then x in At(base, l).globalPropagated
    else FromGlobal(base, sources, n - 1, l, x) || x in At(sources[n - 1], l).global || x in At(sources[n - 1], l).globalPropagated
  }

  ghost predicate FromUser(base: ByLang, sources: seq<ByLang>, n: nat, l: Lang, x: Dir)
    requires n <= |sources|
  {
    if n == 0 then x in At(base, l).userGlobalPropagated
    else FromUser(base, sources, n - 1, l, x) || x in At(sources[n - 1], l).userGlobal || x in At(sources[n - 1], l).globalPropagated
  }

  lemma {:induction false} CollectedFrom(base: ByLang, sources: seq<ByLang>, n: nat, l: Lang, x: Dir)
    requires n <= |sources|
    ensures x in At(Collected(base, sources, n), l).globalPropagated <==> FromGlobal(base, sources, n, l, x)
    ensures x in At(Collected(base, sources, n), l).userGlobalPropagated <==> FromUser(base, sources, n, l, x)
  {
    if n > 0 {
      CollectedFrom(base, sources, n - 1, l, x);
      PropagatedAt(sources[n - 1], Collected(base, sources, n - 1), l, x);
    }
  }

  /** `x` is a global directory of a module reached from `v` by a path over its first `n` edges. */
  ghost predicate GlobalBelow(g: Dag, own: map<NodeId, ByLang>, v: NodeId, n: nat, l: Lang, x: Dir)
    requires n <= g.Degree(v)
  {
    exists u :: u in own && PathsVia(g, v, n, u) > 0 && x in At(own[u], l).global
  }

  lemma GlobalBelowEdge(g: Dag, own: map<NodeId, ByLang>, v: NodeId, n: nat, l: Lang, x: Dir)
    requires g.direct.Keys <= own.Keys && 0 < n <= g.Degree(v)
    ensures var p := g.Peers(v)[n - 1];
      GlobalBelow(g, own, v, n, l, x) <==>
      GlobalBelow(g, own, v, n - 1, l, x) || x in At(own[p], l).global || GlobalBelow(g, own, p, g.Degree(p), l, x)
  {
    var p := g.Peers(v)[n - 1];
    if u :| u in own && PathsVia(g, v, n, u) > 0 && x in At(own[u], l).global {
      assert PathsVia(g, v, n - 1, u) > 0 || u == p || PathsVia(g, p, g.Degree(p), u) > 0;
    }
    if u :| u in own && PathsVia(g, v, n - 1, u) > 0 && x in At(own[u], l).global {
      assert PathsVia(g, v, n, u) > 0;
    }
    if u :| u in own && PathsVia(g, p, g.Degree(p), u) > 0 && x in At(own[u], l).global {
      assert PathsVia(g, v, n, u) > 0;
    }
    if x in At(own[p], l).global {
      assert PathsVia(g, v, n, p) > 0;
    }
  }

  /** Whether a directory comes in through one of the first `n` edges, to all or to users. */
  ghost predicate InGlobal(g: Dag, own: map<NodeId, ByLang>, v: NodeId, n: nat, l: Lang, x: Dir)
    requires n <= g.Degree(v) && g.direct.Keys <= own.Keys
    decreases g.rank(v), n
  {
    && n > 0
    && var p := g.Peers(v)[n - 1];
      InGlobal(g, own, v, n - 1, l, x) || x in At(own[p], l).global || InGlobal(g, own, p, g.Degree(p), l, x)
  }

  ghost predicate InUser(g: Dag, own: map<NodeId, ByLang>, v: NodeId, n: nat, l: Lang, x: Dir)
    requires n <= g.Degree(v) && g.direct.Keys <= own.Keys
    decreases n
  {
    && n > 0
    && var p := g.Peers(v)[n - 1];
      InUser(g, own, v, n - 1, l, x) || x in At(own[p], l).userGlobal || InGlobal(g, own, p, g.Degree(p), l, x)
  }

  /** A finished module shows its own directories and what came in through its edges. */
  lemma {:induction false} BuiltShows(g: Dag, own: map<NodeId, ByLang>, built: map<NodeId, ByLang>, v: NodeId, l: Lang, x: Dir)
    requires Initial(g, own) && Consistent(g, own, built) && v in own
    ensures var (b, o) := (At(built[v], l), At(own[v], l));
      && b.userGlobal == o.userGlobal && b.global == o.global
      && (x in b.globalPropagated <==> InGlobal(g, own, v, g.Degree(v), l, x))
      && (x in b.userGlobalPropagated <==> InUser(g, own, v, g.Degree(v), l, x))
    decreases g.rank(v), g.Degree(v) + 1
  {
    var sources := SourcesOf(g, built, v);
    assert Follows(g, own, built, v);
    OwnKept(own[v], sources, g.Degree(v), l);
    CollectedFrom(own[v], sources, g.Degree(v), l, x);
    EdgesShow(g, own, built, v, g.Degree(v), l, x);
  }

  lemma {:induction false} EdgesShow(g: Dag, own: map<NodeId, ByLang>, built: map<NodeId, ByLang>, v: NodeId, n: nat, l: Lang, x: Dir)
    requires Initial(g, own) && Consistent(g, own, built) && v in own && n <= g.Degree(v)
    ensures FromGlobal(own[v], SourcesOf(g, built, v), n, l, x) <==> InGlobal(g, own, v, n, l, x)
    ensures FromUser(own[v], SourcesOf(g, built, v), n, l, x) <==> InUser(g, own, v, n, l, x)
    decreases g.rank(v), n
  {
    if n > 0 {
      EdgesShow(g, own, built, v, n - 1, l, x);
      BuiltShows(g, own, built, g.Peers(v)[n - 1], l, x);
    }
  }

  lemma {:induction false} GlobalVia(g: Dag, own: map<NodeId, ByLang>, v: NodeId, n: nat, l: Lang, x: Dir)
    requires g.direct.Keys <= own.Keys && n <= g.Degree(v)
    ensures InGlobal(g, own, v, n, l, x) <==> GlobalBelow(g, own, v, n, l, x)
    decreases g.rank(v), n
  {
    if n > 0 {
      var p := g.Peers(v)[n - 1];
      GlobalVia(g, own, v, n - 1, l, x);
      GlobalVia(g, own, p, g.Degree(p), l, x);
      GlobalBelowEdge(g, own, v, n, l, x);
    }
  }

  /** One of the first `n` peers shows `x` to its users. */
  ghost predicate UserOfPeer(g: Dag, own: map<NodeId, ByLang>, v: NodeId, n: nat, l: Lang, x: Dir)
    requires n <= g.Degree(v) && g.direct.Keys <= own.Keys
  {
    exists i :: 0 <= i < n && x in At(own[g.Peers(v)[i]], l).userGlobal
  }

  lemma UserOfPeerEdge(g: Dag, own: map<NodeId, ByLang>, v: NodeId, n: nat, l: Lang, x: Dir)
    requires 0 < n <= g.Degree(v) && g.direct.Keys <= own.Keys
    ensures UserOfPeer(g, own, v, n, l, x) <==>
      UserOfPeer(g, own, v, n - 1, l, x) || x in At(own[g.Peers(v)[n - 1]], l).userGlobal
  {
    if i :| 0 <= i < n - 1 && x in At(own[g.Peers(v)[i]], l).userGlobal {
      assert i < n;
    }
  }

  ghost predicate ShownToUsers(own: map<NodeId, ByLang>, p: NodeId, l: Lang, x: Dir)
    requires p in own
  {
    x in At(own[p], l).global ==> x in At(own[p], l).userGlobal
  }

  lemma GlobalIsShown(own: map<NodeId, ByLang>, p: NodeId, l: Lang, x: Dir)
    requires p in own && Valid(own[p])
    ensures ShownToUsers(own, p, l, x)
  {
    assert l in own[p] ==> Scoped(own[p][l]);
  }

  lemma {:induction false} UserVia(g: Dag, own: map<NodeId, ByLang>, v: NodeId, n: nat, l: Lang, x: Dir)
    requires g.direct.Keys <= own.Keys && n <= g.Degree(v)
    requires forall i :: 0 <= i < n ==> ShownToUsers(own, g.Peers(v)[i], l, x)
    ensures InUser(g, own, v, n, l, x) <==> InGlobal(g, own, v, n, l, x) || UserOfPeer(g, own, v, n, l, x)
    decreases n
  {
    if n > 0 {
      UserVia(g, own, v, n - 1, l, x);
      UserOfPeerEdge(g, own, v, n, l, x);
      assert ShownToUsers(own, g.Peers(v)[n - 1], l, x);
    }
  }

  /** The propagated global directories are those of all strict descendants; users also see the
      user directories of direct peers, and nothing else. */
  lemma PropagationIsClosure(g: Dag, own: map<NodeId, ByLang>, built: map<NodeId, ByLang>, v: NodeId, l: Lang, x: Dir)
    requires Initial(g, own) && Consistent(g, own, built) && v in own && forall u :: u in own ==> Valid(own[u])
    ensures var b := At(built[v], l);
      && (x in b.globalPropagated <==> exists u :: u in own && Reaches(g, v, u) && x in At(own[u], l).global)
      && (x in b.userGlobalPropagated <==> x in b.globalPropagated || UserOfPeer(g, own, v, g.Degree(v), l, x))
  {
    BuiltShows(g, own, built, v, l, x);
    GlobalVia(g, own, v, g.Degree(v), l, x);
    forall i | 0 <= i < g.Degree(v)
      ensures ShownToUsers(own, g.Peers(v)[i], l, x)
    {
      GlobalIsShown(own, g.Peers(v)[i], l, x);
    }
    UserVia(g, own, v, g.Degree(v), l, x);
    if u :| u in own && PathsVia(g, v, g.Degree(v), u) > 0 && x in At(own[u], l).global {
      assert Reaches(g, v, u);
    }
    if u :| u in own && Reaches(g, v, u) && x in At(own[u], l).global {
      assert PathsVia(g, v, g.Degree(v), u) > 0;
    }
  }

  /** Scopes stay nested and lists unique through every run. */
  lemma {:induction false} CollectedValid(base: ByLang, sources: seq<ByLang>, n: nat)
    requires n <= |sources| && Valid(base)
    ensures Valid(Collected(base, sources, n))
  {
    if n > 0 {
      CollectedValid(base, sources, n - 1);
      PropagatedValid(sources[n - 1], Collected(base, sources, n - 1));
    }
  }

  lemma BuiltValid(g: Dag, own: map<NodeId, ByLang>, v: NodeId)
    requires g.direct.Keys <= own.Keys && v in own && Valid(own[v])
    ensures Valid(Built(g, own, v))
  {
    CollectedValid(own[v], seq(g.Degree(v), i requires 0 <= i < g.Degree(v) => Built(g, own, g.Peers(v)[i])), g.Degree(v));
  }

  /** The whole propagation: modules that have been processed hold what is built for them, the others
      their own directories, and all lists are valid at the end. */
  method PropagateEverything(g: Dag, order: seq<NodeId>, mods: map<NodeId, TModuleIncDirs>, ghost own: map<NodeId, ByLang>)
    requires Distinctly(mods) && PeersFirst(g, {}, order) && mods.Keys == own.Keys && g.direct.Keys <= own.Keys
    requires forall v :: v in order ==> v in mods
    requires forall v :: v in mods ==> mods[v].byLang == own[v] && Valid(own[v])
    modifies mods.Values
    ensures forall v :: v in mods ==> mods[v].byLang == if v in order then Built(g, own, v) else own[v]
    ensures forall v :: v in mods ==> Valid(mods[v].byLang)
  {
    AllBuiltConsistent(g, own);
    PropagateDirs(g, {}, order, mods, own, AllBuilt(g, own));
    forall v | v in mods
      ensures mods[v].byLang == (if v in order then Built(g, own, v) else own[v]) && Valid(mods[v].byLang)
    {
      OrderFinished({}, order, v);
      BuiltValid(g, own, v);
    }
  }

  // ---------------------------------------------------------------- walking several collections

  ghost function Flat(collections: seq<seq<Dir>>): seq<Dir> {
    if collections == [] then [] else collections[0] + Flat(collections[1..])
  }

  /** Walks several collections as one. */
  class ConstIterator {
    const collections: seq<seq<Dir>>
    var externalIt: nat
    var internalIt: nat

    /** Stands on an element, or at the end. */
    ghost predicate Valid()
      reads this
    {
      externalIt <= |collections| && (externalIt < |collections| ==> internalIt < |collections[externalIt]|)
    }

    /** What is still to come. */
    ghost function Rest(): seq<Dir>
      requires externalIt <= |collections| && (externalIt < |collections| ==> internalIt <= |collections[externalIt]|)
      reads this
    {
      if externalIt == |collections| then []
      else collections[externalIt][internalIt..] + Flat(collections[externalIt + 1..])
    }

    constructor (collections: seq<seq<Dir>>)
      ensures Valid() && this.collections == collections && Rest() == Flat(collections)
    {
      this.collections, externalIt, internalIt := collections, 0, 0;
      new;
      if externalIt < |collections| {
        assert collections[0][0..] == collections[0];
        IterateToNotEmpty();
      } else {
        assert collections == [];
      }
    }

    method IterateToNotEmpty()
      requires externalIt < |collections| && internalIt <= |collections[externalIt]|
      modifies this
      ensures Valid() && Rest() == old(Rest())
    {
      while internalIt == |collections[externalIt]|
        invariant externalIt < |collections| && internalIt <= |collections[externalIt]|
        invariant Rest() == old(Rest())
        decreases |collections| - externalIt
      {
        ghost var after := collections[externalIt + 1..];
        assert Rest() == Flat(after);
        externalIt := externalIt + 1;
        if externalIt == |collections| {
          assert after == [];
          break;
        }
        internalIt := 0;
        assert after[0] == collections[externalIt] == collections[externalIt][0..];
        assert after[1..] == collections[externalIt + 1..];
      }
    }

    method Next()
      requires Valid() && externalIt < |collections|
      modifies this
      ensures Valid() && Rest() == old(Rest())[1..]
    {
      ghost var here := collections[externalIt][internalIt..];
      assert (here + Flat(collections[externalIt + 1..]))[1..] == here[1..] + Flat(collections[externalIt + 1..]);
      internalIt := internalIt + 1;
      IterateToNotEmpty();
    }

    method Current() returns (d: Dir)
      requires Valid() && externalIt < |collections|
      ensures Rest() != [] && d == Rest()[0]
    {
      d := collections[externalIt][internalIt];
    }
  }

  /** All directories of a language, in the order in which they are searched. */
  method Collect(m: ByLang, l: Lang) returns (r: seq<Dir>)
    ensures r == At(m, l).localUserGlobal + At(m, l).userGlobalPropagated
  {
    var d := At(m, l);
    var collections := [d.localUserGlobal, d.userGlobalPropagated];
    assert collections[1..] == [d.userGlobalPropagated] && collections[1..][1..] == [];
    ghost var all := Flat(collections);
    assert Flat(collections[1..]) == d.userGlobalPropagated + Flat([]);
    assert all == d.localUserGlobal + d.userGlobalPropagated;
    var it := new ConstIterator(collections);
    r := [];
    while it.externalIt < |it.collections|
      invariant fresh(it) && it.Valid() && r + it.Rest() == all
      decreases |it.Rest()|
    {
      var x := it.Current();
      assert it.Rest() == [x] + it.Rest()[1..];
      assert r + ([x] + it.Rest()[1..]) == (r + [x]) + it.Rest()[1..];
      r := r + [x];
      it.Next();
    }
  }
}
