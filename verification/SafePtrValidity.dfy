/** Objects are valid until they lose an owner. */
module SafePtrValidity {
  import opened SafePtr
  import opened SafePtrTheory

  ghost predicate ValidIn(s: State, o: ObjId) {
    o in s.heap && !IsInvalid(s.heap[o].objData)
  }

  /** The step takes the last owner of some kind away from `o`. */
  ghost predicate LosesOwner(s: State, t: State, o: ObjId) {
    LosesLastOwner(s, t, Owner, o) || LosesLastOwner(s, t, MultiOwner, o)
  }

  lemma ReleaseValid(s: State, k: Kind, x: ObjId, o: ObjId)
    requires x in s.heap && CountersExact(s, Debt(k, x), x) && ValidIn(s, o)
    requires o == x && k != Ref ==> Count(s.pointers, k, x) > 0
    ensures ValidIn(Release(s, k, x), o)
  {
    if o == x {
      var d := s.(heap := s.heap[x := Decrement(s.heap[x], k)]);
      DecrementKeepsInvalid(s, k, x);
      BusyMeans(d, x);
    }
  }

  lemma DestroyMemberValid(s: State, p: PtrId, o: ObjId)
    requires Sound(s, NoDebt) && p in s.pointers && ValidIn(s, o) && !LosesOwner(s, DestroyMember(s, p), o)
    ensures ValidIn(DestroyMember(s, p), o)
  {
    PointerGone(s, p);
    var k, x := s.pointers[p].kind, s.pointers[p].target;
    var g := s.(pointers := s.pointers - {p});
    ReleaseKeepsHeap(g, k, x);
    CountRemoved(s.pointers, p, k, x);
    assert CountersExact(g, Debt(k, x), x);
    ReleaseValid(g, k, x, o);
  }

  lemma FinishFrameValid(s: State, o: ObjId)
    requires Sound(s, NoDebt) && s.stack != [] && ValidIn(s, o) && o in FinishFrame(s).heap
    ensures ValidIn(FinishFrame(s), o)
  {
    var f := s.stack[|s.stack| - 1];
    assert FrameSound(s, NoDebt, f);
    if f.Invalidate? {
      BusyMeans(s, f.obj);
      assert Invalidating(s.stack, f.obj);
      OthersKept(Invalidated(s), f.obj, o);
    }
  }

  lemma OthersKept(s: State, x: ObjId, o: ObjId)
    requires o != x && o in s.heap
    ensures o in Release(s, Ref, x).heap && Release(s, Ref, x).heap[o] == s.heap[o]
  {}

  lemma AcquireValid(s: State, m: State, debt: Debt, k: Kind, x: ObjId, o: ObjId)
    requires x in s.heap && CountersExact(s, debt, x) && m.heap == s.heap && m.stack == s.stack
    requires forall l :: Count(m.pointers, l, x) == Count(s.pointers, l, x) + Bit(l == k)
    requires InRange(Expected(m, debt, Owner, x), Expected(m, debt, MultiOwner, x)) && Expected(m, debt, Ref, x) + 1 < WORD
    requires ValidIn(s, o)
    ensures ValidIn(Acquire(m, k, x), o)
  {
    if o == x {
      ShowsIncrement(s.heap[o], k, Expected(s, debt, Owner, o), Expected(s, debt, MultiOwner, o),
                     Expected(s, debt, Ref, o), Invalidating(s.stack, o));
    }
  }

  lemma MakeValid(s: State, p: PtrId, k: Kind, x: ObjId, holder: Holder, o: ObjId)
    requires Sound(s, NoDebt) && Allowed(s, Make(p, k, x, holder)) && Limited(Perform(s, Make(p, k, x, holder))) && ValidIn(s, o)
    ensures ValidIn(Perform(s, Make(p, k, x, holder)), o)
  {
    var m := s.(pointers := s.pointers[p := Pointer(k, x, holder)]);
    forall l
      ensures Count(m.pointers, l, x) == Count(s.pointers, l, x) + Bit(l == k)
    {
      CountAdded(s.pointers, p, Pointer(k, x, holder), l, x);
    }
    assert CountersExact(s, NoDebt, x);
    assert InLimits(Perform(s, Make(p, k, x, holder)).pointers, x);
    AcquireValid(s, m, NoDebt, k, x, o);
  }

  lemma RetargetValid(s: State, p: PtrId, x: ObjId, o: ObjId)
    requires Sound(s, NoDebt) && p in s.pointers && x in s.heap && s.pointers[p].target != x && ValidIn(s, o)
    requires InLimits(s.pointers, x) && InLimits(Retargeted(s, p, x).pointers, x)
    ensures ValidIn(Acquire(Retargeted(s, p, x), s.pointers[p].kind, x), o)
  {
    var was, m := s.pointers[p], Retargeted(s, p, x);
    var gone, debt := s.(pointers := s.pointers - {p}), Debt(was.kind, was.target);
    PointerGone(s, p);
    assert CountersExact(gone, debt, x);
    forall l
      ensures Count(m.pointers, l, x) == Count(gone.pointers, l, x) + Bit(l == was.kind)
      ensures Count(s.pointers, l, x) == Count(gone.pointers, l, x)
    {
      AssignedCounts(s, p, x, l, x);
    }
    AcquireValid(gone, m, debt, was.kind, x, o);
  }

  lemma AssignValid(s: State, p: PtrId, x: ObjId, o: ObjId)
    requires Sound(s, NoDebt) && Limited(s) && Allowed(s, Assign(p, x)) && Limited(Perform(s, Assign(p, x)))
    requires ValidIn(s, o) && !LosesOwner(s, Perform(s, Assign(p, x)), o)
    ensures ValidIn(Perform(s, Assign(p, x)), o)
  {
    var was := s.pointers[p];
    if was.target == x {
      AssignSelf(s, p);
    } else {
      var t := Acquire(Retargeted(s, p, x), was.kind, x);
      AssignLimits(s, p, x);
      RetargetSound(s, p, x);
      assert InLimits(s.pointers, x) && InLimits(Retargeted(s, p, x).pointers, x);
      RetargetValid(s, p, x, o);
      assert CountersExact(t, Debt(was.kind, was.target), was.target);
      ReleaseKeepsHeap(t, was.kind, was.target);
      AssignedCounts(s, p, x, was.kind, was.target);
      ReleaseValid(t, was.kind, was.target, o);
    }
  }

  lemma NextValid(s: State, t: State, o: ObjId)
    requires Sound(s, NoDebt) && Limited(s) && Limited(t) && Next(s, t)
    requires ValidIn(s, o) && o in t.heap && !LosesOwner(s, t, o)
    ensures ValidIn(t, o)
  {
    if Cascade(s, t) {
      var x := s.stack[|s.stack| - 1].obj;
      if exists p :: Holds(s, x, p) {
        var p :| Holds(s, x, p) && t == DestroyMember(s, p);
        DestroyMemberValid(s, p, o);
      } else {
        FinishFrameValid(s, o);
      }
    } else {
      var a :| Allowed(s, a) && t == Perform(s, a);
      match a
      case New(_) =>
      case Make(p, k, x, holder) => MakeValid(s, p, k, x, holder, o);
      case Assign(p, x) => AssignValid(s, p, x, o);
      case Drop(p) => DestroyMemberValid(s, p, o);
    }
  }

  /** An object that has just come into being is valid. */
  lemma NewIsValid(s: State, t: State, o: ObjId)
    requires Next(s, t) && o !in s.heap && o in t.heap && Sound(s, NoDebt)
    ensures ValidIn(t, o)
  {
    if Cascade(s, t) {
      NoneBorn(s, t, o);
    } else {
      var a :| Allowed(s, a) && t == Perform(s, a);
      BornByNew(s, a, o);
    }
  }

  lemma NoneBorn(s: State, t: State, o: ObjId)
    requires Cascade(s, t) && o !in s.heap
    ensures o !in t.heap
  {
    var x := s.stack[|s.stack| - 1].obj;
    if exists p :: Holds(s, x, p) {
      var p :| Holds(s, x, p) && t == DestroyMember(s, p);
      ReleaseKeepsHeap(s.(pointers := s.pointers - {p}), s.pointers[p].kind, s.pointers[p].target);
    } else if Top(s.stack).Invalidate? && x in s.heap {
      ReleaseKeepsHeap(Invalidated(s), Ref, x);
    }
  }

  lemma BornByNew(s: State, a: Action, o: ObjId)
    requires Allowed(s, a) && o !in s.heap && o in Perform(s, a).heap
    ensures ValidIn(Perform(s, a), o)
  {
    match a
    case New(_) =>
    case Make(p, k, x, holder) =>
    case Assign(p, x) =>
      var was := s.pointers[p];
      ReleaseKeepsHeap(Acquire(s.(pointers := s.pointers[p := was.(target := x)]), was.kind, x), was.kind, was.target);
    case Drop(p) => ReleaseKeepsHeap(s.(pointers := s.pointers - {p}), s.pointers[p].kind, s.pointers[p].target);
  }

  /** Some step before `i` took the last owner of a kind away from `o`. */
  ghost predicate LostOwner(run: seq<State>, i: nat, o: ObjId)
    requires i < |run|
  {
    exists j :: 0 <= j < i && LosesOwner(run[j], run[j + 1], o)
  }

  lemma LostEarlier(run: seq<State>, i: nat, o: ObjId)
    requires i + 1 < |run|
    ensures LostOwner(run, i, o) || LosesOwner(run[i], run[i + 1], o) ==> LostOwner(run, i + 1, o)
  {
    if j :| 0 <= j < i && LosesOwner(run[j], run[j + 1], o) { assert 0 <= j < i + 1; }
  }

  lemma StepValid(run: seq<State>, i: nat, o: ObjId)
    requires IsRun(run) && i + 1 < |run| && o in run[i + 1].heap
    requires o in run[i].heap ==> ValidIn(run[i], o) || LostOwner(run, i, o)
    ensures ValidIn(run[i + 1], o) || LostOwner(run, i + 1, o)
  {
    assert Sound(run[i], NoDebt) by { RunsAreSound(run, i); }
    assert Next(run[i], run[i + 1]) by { assert StepAt(run, i); }
    LostEarlier(run, i, o);
    if o !in run[i].heap {
      NewIsValid(run[i], run[i + 1], o);
    } else if !LostOwner(run, i, o) && !LosesOwner(run[i], run[i + 1], o) {
      NextValid(run[i], run[i + 1], o);
    }
  }

  /** In every state of every run an object is valid unless it has lost the last owner of a kind. */
  lemma {:induction false} ValidUntilLost(run: seq<State>, i: nat, o: ObjId)
    requires IsRun(run) && i < |run| && o in run[i].heap
    ensures ValidIn(run[i], o) || LostOwner(run, i, o)
    decreases i
  {
    if i > 0 {
      if o in run[i - 1].heap { ValidUntilLost(run, i - 1, o); }
      StepValid(run, i - 1, o);
    }
  }
}
