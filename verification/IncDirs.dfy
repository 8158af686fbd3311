/** Include directories of modules and how they propagate to dependents. */
module IncDirs {
  import opened Wrappers
  import opened ModuleGraph

  type Dir = string

  type Lang = nat

  datatype Scope = Local | User | Global

  /** Directories of one language; each list keeps its elements unique and in order of insertion. */
  datatype Dirs = Dirs(
    localUserGlobal: seq<Dir>, userGlobal: seq<Dir>, global: seq<Dir>,
    userGlobalPropagated: seq<Dir>, globalPropagated: seq<Dir>)

  type ByLang = map<Lang, Dirs>

  const NONE := Dirs([], [], [], [], [])

  function At(m: ByLang, lang: Lang): Dirs { if lang in m then m[lang] else NONE }

  // ---------------------------------------------------------------- lists of unique directories

  function Push(dirs: seq<Dir>, d: Dir): seq<Dir> { if d in dirs then dirs else dirs + [d] }

  function Extended(dst: seq<Dir>, src: seq<Dir>): seq<Dir>
    decreases src
  {
    if src == [] then dst else Extended(Push(dst, src[0]), src[1..])
  }

  lemma {:induction false} ExtendedMembers(dst: seq<Dir>, src: seq<Dir>, x: Dir)
    ensures x in Extended(dst, src) <==> x in dst || x in src
    decreases src
  {
    if src != [] {
      assert src == [src[0]] + src[1..];
      ExtendedMembers(Push(dst, src[0]), src[1..], x);
    }
  }

  lemma {:induction false} ExtendedDistinct(dst: seq<Dir>, src: seq<Dir>)
    requires Distinct(dst)
    ensures Distinct(Extended(dst, src)) && dst <= Extended(dst, src)
    decreases src
  {
    if src != [] { ExtendedDistinct(Push(dst, src[0]), src[1..]); }
  }

  /** What is added comes after what was there, in the order of its first occurrences. */
  lemma {:induction false} ExtendedOrder(dst: seq<Dir>, src: seq<Dir>)
    ensures var r := Extended(dst, src);
      && dst <= r
      && (forall i :: |dst| <= i < |r| ==> r[i] !in dst && r[i] in src)
      && (forall i, j :: |dst| <= i < j < |r| ==> FirstAt(src, r[i]) < FirstAt(src, r[j]))
    decreases src
  {
    if src != [] {
      ExtendedOrder(Push(dst, src[0]), src[1..]);
      assert src == [src[0]] + src[1..];
    }
  }

  method AddTo(src: seq<Dir>, dst: seq<Dir>) returns (r: seq<Dir>)
    ensures r == Extended(dst, src)
  {
    r := dst;
    for i := 0 to |src|
      invariant Extended(r, src[i..]) == Extended(dst, src)
    {
      assert src[i..][0] == src[i] && src[i..][1..] == src[i + 1..];
      if src[i] !in r {
        r := r + [src[i]];
      }
    }
  }

  // ---------------------------------------------------------------- one module

  /** What a scope promises: global directories are seen by users, those by the module itself. */
  ghost predicate Scoped(d: Dirs) {
    && (forall x :: x in d.global ==> x in d.userGlobal)
    && (forall x :: x in d.userGlobal ==> x in d.localUserGlobal)
  }

  ghost predicate Unique(d: Dirs) {
    && Distinct(d.localUserGlobal) && Distinct(d.userGlobal) && Distinct(d.global)
    && Distinct(d.userGlobalPropagated) && Distinct(d.globalPropagated)
  }

  function Added(d: Dirs, dir: Dir, scope: Scope): Dirs {
    d.(localUserGlobal := Push(d.localUserGlobal, dir),
       userGlobal := if scope == Local then d.userGlobal else Push(d.userGlobal, dir),
       global := if scope == Global then Push(d.global, dir) else d.global)
  }

  function Propagated(src: Dirs, dst: Dirs): Dirs {
    dst.(userGlobalPropagated := Extended(Extended(dst.userGlobalPropagated, src.userGlobal), src.globalPropagated),
         globalPropagated := Extended(Extended(dst.globalPropagated, src.global), src.globalPropagated))
  }

  ghost function AllPropagated(src: ByLang, dst: ByLang): ByLang {
    map l | l in src.Keys + dst.Keys :: if l in src then Propagated(src[l], At(dst, l)) else dst[l]
  }

  class TModuleIncDirs {
    var byLang: ByLang

    constructor ()
      ensures byLang == map[]
    {
      byLang := map[];
    }

    method Add(dir: Dir, scope: Scope, lang: Lang)
      modifies this
      ensures byLang == old(byLang)[lang := Added(At(old(byLang), lang), dir, scope)]
    {
      var d := AddDir(At(byLang, lang), dir, scope);
      byLang := byLang[lang := d];
    }

    method PropagateTo(other: TModuleIncDirs)
      requires other != this
      modifies other
      ensures other.byLang == AllPropagated(byLang, old(other.byLang))
    {
      other.byLang := PropagateAll(byLang, other.byLang);
    }
  }

  method AddDir(dirs: Dirs, dir: Dir, scope: Scope) returns (d: Dirs)
    ensures d == Added(dirs, dir, scope)
  {
    d := dirs;
    if dir !in d.localUserGlobal {
      d := d.(localUserGlobal := d.localUserGlobal + [dir]);
    }
    if (scope == User || scope == Global) && dir !in d.userGlobal {
      d := d.(userGlobal := d.userGlobal + [dir]);
    }
    if scope == Global && dir !in d.global {
      d := d.(global := d.global + [dir]);
    }
  }

  /** Adding keeps the scopes nested and the lists unique. */
  lemma AddedValid(d: Dirs, dir: Dir, scope: Scope)
    requires Scoped(d) && Unique(d)
    ensures Scoped(Added(d, dir, scope)) && Unique(Added(d, dir, scope))
  {}

  /** Directories declared one after the other. */
  ghost function AllAdded(d: Dirs, adds: seq<(Dir, Scope)>): Dirs
    decreases adds
  {
    if adds == [] then d else AllAdded(Added(d, adds[0].0, adds[0].1), adds[1..])
  }

  /** Those declared with one of the scopes, in order. */
  ghost function Declared(adds: seq<(Dir, Scope)>, scopes: set<Scope>): seq<Dir> {
    if adds == [] then []
    else (if adds[0].1 in scopes then [adds[0].0] else []) + Declared(adds[1..], scopes)
  }

  lemma {:induction false} DeclaredExact(adds: seq<(Dir, Scope)>, scopes: set<Scope>, x: Dir)
    ensures x in Declared(adds, scopes) <==> exists s :: s in scopes && (x, s) in adds
  {
    if adds != [] {
      DeclaredExact(adds[1..], scopes, x);
      assert adds == [adds[0]] + adds[1..];
    }
  }

  /** A module sees all it declares, its users the user and global directories, everybody above the global
      ones; each list in the order of declaration, without repetition. */
  lemma {:induction false} AddsExact(d: Dirs, adds: seq<(Dir, Scope)>)
    ensures AllAdded(d, adds) == Dirs(
      Extended(d.localUserGlobal, Declared(adds, {Local, User, Global})),
      Extended(d.userGlobal, Declared(adds, {User, Global})),
      Extended(d.global, Declared(adds, {Global})),
      d.userGlobalPropagated, d.globalPropagated)
    decreases adds
  {
    if adds != [] {
      var (dir, scope) := adds[0];
      AddsExact(Added(d, dir, scope), adds[1..]);
      OneDeclared(d.localUserGlobal, adds, {Local, User, Global});
      OneDeclared(d.userGlobal, adds, {User, Global});
      OneDeclared(d.global, adds, {Global});
    }
  }

  lemma OneDeclared(list: seq<Dir>, adds: seq<(Dir, Scope)>, scopes: set<Scope>)
    requires adds != []
    ensures Extended(list, Declared(adds, scopes)) ==
      Extended(if adds[0].1 in scopes then Push(list, adds[0].0) else list, Declared(adds[1..], scopes))
  {
    var rest := Declared(adds[1..], scopes);
    assert ([adds[0].0] + rest)[1..] == rest && [] + rest == rest;
  }

  /** The languages in any order. */
  method PropagateAll(src: ByLang, dst: ByLang) returns (r: ByLang)
    ensures r == AllPropagated(src, dst)
  {
    r := dst;
    var todo := src.Keys;
    assert AllPropagated(src - todo, dst) == dst;
    while todo != {}
      invariant todo <= src.Keys
      invariant r == AllPropagated(src - todo, dst)
    {
      var l :| l in todo;
      AllPropagatedNext(src, todo, dst, l);
      var d := PropagateLang(src[l], At(r, l));
      r := r[l := d];
      todo := todo - {l};
    }
    assert src - {} == src;
  }

  lemma AllPropagatedNext(src: ByLang, todo: set<Lang>, dst: ByLang, l: Lang)
    requires l in todo && todo <= src.Keys
    ensures At(AllPropagated(src - todo, dst), l) == At(dst, l)
    ensures AllPropagated(src - (todo - {l}), dst) == AllPropagated(src - todo, dst)[l := Propagated(src[l], At(dst, l))]
  {}

  method PropagateLang(src: Dirs, dst: Dirs) returns (r: Dirs)
    ensures r == Propagated(src, dst)
  {
    var user := AddTo(src.userGlobal, dst.userGlobalPropagated);
    user := AddTo(src.globalPropagated, user);
    var global := AddTo(src.global, dst.globalPropagated);
    global := AddTo(src.globalPropagated, global);
    r := dst.(userGlobalPropagated := user, globalPropagated := global);
  }

  lemma PropagatedUnique(src: Dirs, dst: Dirs)
    requires Unique(dst)
    ensures Unique(Propagated(src, dst))
  {
    ExtendedDistinct(dst.userGlobalPropagated, src.userGlobal);
    ExtendedDistinct(Extended(dst.userGlobalPropagated, src.userGlobal), src.globalPropagated);
    ExtendedDistinct(dst.globalPropagated, src.global);
    ExtendedDistinct(Extended(dst.globalPropagated, src.global), src.globalPropagated);
  }

  ghost predicate Valid(m: ByLang) {
    forall l :: l in m ==> Scoped(m[l]) && Unique(m[l])
  }

  /** Propagation keeps the scopes nested and the lists unique. */
  lemma PropagatedValid(src: ByLang, dst: ByLang)
    requires Valid(dst)
    ensures Valid(AllPropagated(src, dst))
  {
    forall l | l in src
      ensures Unique(Propagated(src[l], At(dst, l)))
    {
      PropagatedUnique(src[l], At(dst, l));
    }
  }

  // ---------------------------------------------------------------- all modules, peers first

  ghost predicate Distinctly(mods: map<NodeId, TModuleIncDirs>) {
    forall u, v :: u in mods && v in mods && u != v ==> mods[u] != mods[v]
  }

  /** What a module holds after the first `n` sources have propagated to it. */
  ghost function Collected(base: ByLang, sources: seq<ByLang>, n: nat): ByLang
    requires n <= |sources|
  {
    if n == 0 then base else AllPropagated(sources[n - 1], Collected(base, sources, n - 1))
  }

  ghost function SourcesOf(g: Dag, built: map<NodeId, ByLang>, v: NodeId): (r: seq<ByLang>)
    requires g.direct.Keys <= built.Keys
    ensures |r| == g.Degree(v)
  {
    seq(g.Degree(v), i requires 0 <= i < g.Degree(v) => built[g.Peers(v)[i]])
  }

  /** A module holds its own directories and what its peers, as they end up, propagate. */
  ghost predicate Follows(g: Dag, own: map<NodeId, ByLang>, built: map<NodeId, ByLang>, v: NodeId)
    requires v in own && own.Keys == built.Keys && g.direct.Keys <= own.Keys
  {
    built[v] == Collected(own[v], SourcesOf(g, built, v), g.Degree(v))
  }

  ghost predicate Consistent(g: Dag, own: map<NodeId, ByLang>, built: map<NodeId, ByLang>) {
    && own.Keys == built.Keys && g.direct.Keys <= own.Keys
    && forall v {:trigger Follows(g, own, built, v)} :: v in own ==> Follows(g, own, built, v)
  }

  /** The directories all modules end up with. */
  ghost function Built(g: Dag, own: map<NodeId, ByLang>, v: NodeId): ByLang
    requires g.direct.Keys <= own.Keys && v in own
    decreases g.rank(v)
  {
    Collected(own[v], seq(g.Degree(v), i requires 0 <= i < g.Degree(v) => Built(g, own, g.Peers(v)[i])), g.Degree(v))
  }

  ghost function AllBuilt(g: Dag, own: map<NodeId, ByLang>): map<NodeId, ByLang>
    requires g.direct.Keys <= own.Keys
  {
    map v | v in own :: Built(g, own, v)
  }

  lemma AllBuiltConsistent(g: Dag, own: map<NodeId, ByLang>)
    requires g.direct.Keys <= own.Keys
    ensures Consistent(g, own, AllBuilt(g, own))
  {
    var built := AllBuilt(g, own);
    forall v | v in own
      ensures Follows(g, own, built, v)
    {
      assert SourcesOf(g, built, v) ==
        seq(g.Degree(v), i requires 0 <= i < g.Degree(v) => Built(g, own, g.Peers(v)[i]));
    }
  }

  /** `order` lists modules after their peers, `done` being finished before. */
  ghost predicate PeersFirst(g: Dag, done: set<NodeId>, order: seq<NodeId>)
    decreases |order|
  {
    order != [] ==>
      && order[0] !in done && (forall p :: p in g.Peers(order[0]) ==> p in done)
      && PeersFirst(g, done + {order[0]}, order[1..])
  }

  ghost function Finished(done: set<NodeId>, order: seq<NodeId>): set<NodeId>
    decreases |order|
  {
    if order == [] then done else Finished(done + {order[0]}, order[1..])
  }

  lemma {:induction false} OrderFinished(done: set<NodeId>, order: seq<NodeId>, v: NodeId)
    ensures v in Finished(done, order) <==> v in done || v in order
    decreases |order|
  {
    if order != [] {
      assert order == [order[0]] + order[1..];
      OrderFinished(done + {order[0]}, order[1..], v);
    }
  }

  /** A module collects from its finished peers. */
  method CollectFromPeers(peers: seq<TModuleIncDirs>, target: TModuleIncDirs, ghost sources: seq<ByLang>)
    requires target !in peers && |sources| == |peers| && forall i :: 0 <= i < |peers| ==> peers[i].byLang == sources[i]
    modifies target
    ensures target.byLang == Collected(old(target.byLang), sources, |sources|)
  {
    for j := 0 to |peers|
      invariant target.byLang == Collected(old(target.byLang), sources, j)
    {
      peers[j].PropagateTo(target);
    }
  }

  method PropagateOne(g: Dag, ghost done: set<NodeId>, v: NodeId, mods: map<NodeId, TModuleIncDirs>,
      ghost own: map<NodeId, ByLang>, ghost built: map<NodeId, ByLang>)
    requires Distinctly(mods) && mods.Keys == own.Keys && Consistent(g, own, built)
    requires done <= mods.Keys && v in mods && v !in done && forall p :: p in g.Peers(v) ==> p in done
    requires forall u :: u in done ==> mods[u].byLang == built[u]
    requires mods[v].byLang == own[v]
    modifies mods[v]
    ensures mods[v].byLang == built[v]
  {
    var ids := g.Peers(v);
    assert forall j :: 0 <= j < |ids| ==> ids[j] in done;
    var peers := seq(|ids|, j requires 0 <= j < |ids| && ids[j] in mods => mods[ids[j]]);
    assert Follows(g, own, built, v);
    CollectFromPeers(peers, mods[v], SourcesOf(g, built, v));
  }

  /** Peers first, every module collects what its peers pass on. */
  method PropagateDirs(g: Dag, ghost done: set<NodeId>, order: seq<NodeId>, mods: map<NodeId, TModuleIncDirs>,
      ghost own: map<NodeId, ByLang>, ghost built: map<NodeId, ByLang>)
    requires Distinctly(mods) && PeersFirst(g, done, order) && mods.Keys == own.Keys && Consistent(g, own, built)
    requires done <= mods.Keys && forall v :: v in order ==> v in mods
    requires forall v :: v in mods ==> mods[v].byLang == if v in done then built[v] else own[v]
    modifies mods.Values
    ensures forall v :: v in mods ==> mods[v].byLang == if v in Finished(done, order) then built[v] else own[v]
    decreases |order|
  {
    if order != [] {
      PropagateOne(g, done, order[0], mods, own, built);
      PropagateDirs(g, done + {order[0]}, order[1..], mods, own, built);
    }
  }
}
