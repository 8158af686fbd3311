/** Choosing one version per library. */
module ConflictResolver {
  import opened Wrappers
  import opened ModuleGraph
  import opened DependencyRules

  datatype Kind = Unversioned | Default | Direct | Managed | Transitive

  datatype ResolvedPeer = ResolvedPeer(id: NodeId, kind: Kind)

  datatype ResolutionInfo = ResolutionInfo(minDepth: nat, peer: ResolvedPeer)

  datatype Record = Record(choice: ResolvedPeer, version: string, conflicts: seq<string>)

  /** Directories of modules, which of them are versioned (under a managed root), and the
      versioned modules known by directory. */
  datatype Env = Env(dirOf: NodeId -> Dir, contrib: NodeId -> bool, libIds: map<Dir, NodeId>) {
    function LibOf(id: NodeId): Dir { Parent(dirOf(id)) }
  }

  datatype State = State(accumulated: map<NodeId, ResolutionInfo>, resolutions: map<Dir, Record>)

  // ---------------------------------------------------------------- specification

  function Emplace(m: map<NodeId, ResolutionInfo>, id: NodeId, info: ResolutionInfo): map<NodeId, ResolutionInfo> {
    if id in m then m else m[id := info]
  }

  function Accepted(st: State, conflictId: NodeId, peer: ResolvedPeer, depth: nat): (State, NodeId) {
    var acc := Emplace(st.accumulated, conflictId, ResolutionInfo(depth, peer));
    var found := acc[conflictId];
    var acc' := if peer.kind == Managed then Emplace(acc, found.peer.id, found) else acc;
    (st.(accumulated := acc'), found.peer.id)
  }

  function ExplicitResolution(env: Env, rules: Rules, peer: Dir, isDirect: bool): Option<Dir> {
    var rule := GetRuleForPeer(rules, peer, isDirect);
    if rule == [] || rule !in env.libIds then None else Some(rule)
  }

  function RepeatedVersion(rules: Rules, r: Record, version: string): Record {
    if (rules.forbidConflict && r.choice.kind != Managed)
       || ((rules.forbidConflictDM || rules.forbidConflictDMRecent) && r.choice.kind == Managed)
    then r.(conflicts := (if r.conflicts == [] then [r.version] else r.conflicts) + [version])
    else r
  }

  /** What resolving one peer does; the result is the module to traverse in its place. */
  function Resolved(env: Env, rules: Rules, st: State, cur: ResolvedPeer, depth: nat): (State, Option<NodeId>) {
    if cur.kind == Unversioned then
      var (st', id) := Accepted(st, cur.id, cur, depth);
      (st', Some(id))
    else
      var dir := env.dirOf(cur.id);
      var lib := Parent(dir);
      if lib in st.resolutions then
        var r := st.resolutions[lib];
        var st' := st.(resolutions := st.resolutions[lib := RepeatedVersion(rules, r, Basename(dir))]);
        (if r.choice.kind == Managed
         then st'.(accumulated := Emplace(st'.accumulated, cur.id, ResolutionInfo(depth, r.choice))) else st',
         None)
      else
        match ExplicitResolution(env, rules, dir, depth == 1)
        case None =>
          var choice := cur.(kind := if cur.kind == Managed then Transitive else cur.kind);
          var (st', id) := Accepted(st.(resolutions := st.resolutions[lib := Record(choice, Basename(dir), [])]), cur.id, choice, depth);
          (st', Some(id))
        case Some(rule) =>
          var choice := ResolvedPeer(env.libIds[rule], Managed);
          var conflicts := if (rules.forbidConflictDM || rules.forbidConflictDMRecent) && cur.id != choice.id then [Basename(dir)] else [];
          var (st', id) := Accepted(st.(resolutions := st.resolutions[lib := Record(choice, Basename(rule), conflicts)]), cur.id, choice, depth);
          (st', Some(id))
  }

  // ---------------------------------------------------------------- the resolver object

  class Resolver {
    const env: Env
    const rules: Rules
    var accumulated: map<NodeId, ResolutionInfo>
    var resolutions: map<Dir, Record>

    ghost function Value(): State
      reads this
    {
      State(accumulated, resolutions)
    }

    constructor (env: Env, rules: Rules)
      ensures this.env == env && this.rules == rules && Value() == State(map[], map[])
    {
      this.env, this.rules, accumulated, resolutions := env, rules, map[], map[];
    }

    method AcceptResolution(conflictId: NodeId, peer: ResolvedPeer, depth: nat) returns (id: NodeId)
      modifies this`accumulated
      ensures (Value(), id) == Accepted(old(Value()), conflictId, peer, depth)
    {
      if conflictId !in accumulated {
        accumulated := accumulated[conflictId := ResolutionInfo(depth, peer)];
      }
      var found := accumulated[conflictId];
      if peer.kind == Managed && found.peer.id !in accumulated {
        accumulated := accumulated[found.peer.id := found];
      }
      return found.peer.id;
    }

    method Resolve(cur: ResolvedPeer, depth: nat) returns (r: Option<NodeId>)
      modifies this
      ensures (Value(), r) == Resolved(env, rules, old(Value()), cur, depth)
    {
      if cur.kind == Unversioned {
        var id := AcceptResolution(cur.id, cur, depth);
        return Some(id);
      }
      var dir := env.dirOf(cur.id);
      var lib, version := Parent(dir), Basename(dir);
      if lib in resolutions {
        var record := resolutions[lib];
        if (rules.forbidConflict && record.choice.kind != Managed)
           || ((rules.forbidConflictDM || rules.forbidConflictDMRecent) && record.choice.kind == Managed) {
          var conflicts := if record.conflicts == [] then [record.version] else record.conflicts;
          record := record.(conflicts := conflicts + [version]);
        }
        resolutions := resolutions[lib := record];
        if record.choice.kind == Managed && cur.id !in accumulated {
          accumulated := accumulated[cur.id := ResolutionInfo(depth, record.choice)];
        }
        return None;
      }
      var rule := ExplicitResolution(env, rules, dir, depth == 1);
      if rule.None? {
        var choice := cur.(kind := if cur.kind == Managed then Transitive else cur.kind);
        resolutions := resolutions[lib := Record(choice, version, [])];
        var id := AcceptResolution(cur.id, choice, depth);
        return Some(id);
      }
      var target := env.libIds[rule.value];
      var conflicts := [];
      if (rules.forbidConflictDM || rules.forbidConflictDMRecent) && cur.id != target {
        conflicts := [version];
      }
      resolutions := resolutions[lib := Record(ResolvedPeer(target, Managed), Basename(rule.value), conflicts)];
      var id := AcceptResolution(cur.id, ResolvedPeer(target, Managed), depth);
      return Some(id);
    }
  }

  // ---------------------------------------------------------------- one version per library

  /** Versioned directories are not themselves libraries, the table of versioned modules lists
      modules under their own directory, and rules are keyed by library. */
  ghost predicate Orderly(env: Env, rules: Rules) {
    && Keyed(rules)
    && (forall id :: env.contrib(id) ==> env.dirOf(id) !in rules.lib2ver && env.dirOf(id) !in rules.forced)
    && (forall d :: d in env.libIds ==> env.dirOf(env.libIds[d]) == d && env.contrib(env.libIds[d]))
  }

  /** Only modules outside the managed roots are unversioned. */
  ghost predicate WellKinded(env: Env, peer: ResolvedPeer) {
    peer.kind == Unversioned <==> !env.contrib(peer.id)
  }

  /** Each library has one choice, and every accepted version is the choice of its library. */
  ghost predicate OneChoice(env: Env, st: State) {
    && (forall lib :: lib in st.resolutions ==>
          var c := st.resolutions[lib].choice; WellKinded(env, c) && c.kind != Unversioned && env.LibOf(c.id) == lib)
    && (forall id :: id in st.accumulated ==> ChosenOrUnversioned(env, st.resolutions, st.accumulated[id].peer))
  }

  ghost predicate ChosenOrUnversioned(env: Env, resolutions: map<Dir, Record>, peer: ResolvedPeer) {
    && WellKinded(env, peer)
    && (peer.kind != Unversioned ==>
          env.LibOf(peer.id) in resolutions && resolutions[env.LibOf(peer.id)].choice.id == peer.id)
  }

  lemma AcceptedOneChoice(env: Env, st: State, conflictId: NodeId, peer: ResolvedPeer, depth: nat)
    requires OneChoice(env, st) && ChosenOrUnversioned(env, st.resolutions, peer)
    ensures OneChoice(env, Accepted(st, conflictId, peer, depth).0)
  {}

  /** Recording a choice for a new library disturbs nothing. */
  lemma NewChoice(env: Env, st: State, lib: Dir, r: Record)
    requires OneChoice(env, st) && lib !in st.resolutions
    requires WellKinded(env, r.choice) && r.choice.kind != Unversioned && env.LibOf(r.choice.id) == lib
    ensures OneChoice(env, st.(resolutions := st.resolutions[lib := r]))
  {}

  lemma RepeatedOneChoice(env: Env, rules: Rules, st: State, cur: ResolvedPeer, depth: nat)
    requires OneChoice(env, st) && cur.kind != Unversioned && env.LibOf(cur.id) in st.resolutions
    ensures OneChoice(env, Resolved(env, rules, st, cur, depth).0)
  {}

  lemma NewLibraryOneChoice(env: Env, st: State, cur: ResolvedPeer, r: Record, depth: nat)
    requires OneChoice(env, st) && env.LibOf(cur.id) !in st.resolutions
    requires WellKinded(env, r.choice) && r.choice.kind != Unversioned && env.LibOf(r.choice.id) == env.LibOf(cur.id)
    ensures OneChoice(env, Accepted(st.(resolutions := st.resolutions[env.LibOf(cur.id) := r]), cur.id, r.choice, depth).0)
  {
    NewChoice(env, st, env.LibOf(cur.id), r);
    AcceptedOneChoice(env, st.(resolutions := st.resolutions[env.LibOf(cur.id) := r]), cur.id, r.choice, depth);
  }

  lemma ResolvedOneChoice(env: Env, rules: Rules, st: State, cur: ResolvedPeer, depth: nat)
    requires Orderly(env, rules) && OneChoice(env, st) && WellKinded(env, cur)
    ensures OneChoice(env, Resolved(env, rules, st, cur, depth).0)
  {
    if cur.kind == Unversioned {
      AcceptedOneChoice(env, st, cur.id, cur, depth);
    } else if env.LibOf(cur.id) in st.resolutions {
      RepeatedOneChoice(env, rules, st, cur, depth);
    } else {
      RuleStaysInLibrary(rules, env.dirOf(cur.id), depth == 1);
      NewLibraryOneChoice(env, st, cur, Resolved(env, rules, st, cur, depth).0.resolutions[env.LibOf(cur.id)], depth);
    }
  }

  /** Two accepted versioned modules of one library are the same module. */
  lemma OneVersionPerLibrary(env: Env, st: State, x: NodeId, y: NodeId)
    requires OneChoice(env, st) && x in st.accumulated && y in st.accumulated
    ensures var a, b := st.accumulated[x].peer.id, st.accumulated[y].peer.id;
      env.contrib(a) && env.contrib(b) && env.LibOf(a) == env.LibOf(b) ==> a == b
  {
    assert ChosenOrUnversioned(env, st.resolutions, st.accumulated[x].peer);
    assert ChosenOrUnversioned(env, st.resolutions, st.accumulated[y].peer);
  }
}
