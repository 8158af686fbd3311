/** Nothing leaks: an object that was ever pointed to is deleted once no pointer leads to it. */
module SafePtrLeaks {
  import opened SafePtr
  import opened SafePtrTheory

  ghost predicate Pointed(s: State, o: ObjId) {
    exists p :: p in s.pointers && s.pointers[p].target == o
  }

  /** `o` is accounted for: something points to it, or its destruction is under way. */
  ghost predicate Kept(s: State, o: ObjId) {
    Pointed(s, o) || OnStack(s.stack, o)
  }

  lemma CountedIsPointed(s: State, k: Kind, o: ObjId)
    requires Count(s.pointers, k, o) > 0
    ensures Pointed(s, o)
  {
    var p :| p in Pointing(s.pointers, k, o);
  }

  lemma StackGrows(s: State, t: State, o: ObjId)
    requires s.stack <= t.stack && t.pointers == s.pointers && Kept(s, o)
    ensures Kept(t, o)
  {
    if i :| 0 <= i < |s.stack| && s.stack[i].obj == o { assert t.stack[i].obj == o; }
  }

  lemma ReleaseGrows(s: State, k: Kind, x: ObjId)
    ensures s.stack <= Release(s, k, x).stack && Release(s, k, x).pointers == s.pointers
  {}

  /** Whoever has just lost a pointer is still pointed to, or its destruction starts. */
  lemma ReleaseKeeps(s: State, k: Kind, x: ObjId)
    requires x in s.heap && CountersExact(s, Debt(k, x), x) && Sound(Release(s, k, x), NoDebt)
    ensures Kept(Release(s, k, x), x)
  {
    var d, t := s.(heap := s.heap[x := Decrement(s.heap[x], k)]), Release(s, k, x);
    ReleaseGrows(s, k, x);
    if Kept(s, x) {
      StackGrows(s, t, x);
    } else {
      assert d.pointers == s.pointers && d.stack == s.stack && CountersExact(d, NoDebt, x) by { DecrementKeepsInvalid(s, k, x); }
      assert t == StartDelete(d, x) && !IsBusy(d.heap[x].objData) by { Unkept(d, k, x); }
      assert t.stack[|s.stack|].obj == x;
    }
  }

  lemma Unkept(d: State, k: Kind, x: ObjId)
    requires x in d.heap && CountersExact(d, NoDebt, x) && !Kept(d, x)
    ensures ReleaseComplete(d, k, x) == StartDelete(d, x) && !IsBusy(d.heap[x].objData)
  {
    forall l
      ensures Count(d.pointers, l, x) == 0
    {
      if Count(d.pointers, l, x) > 0 { CountedIsPointed(d, l, x); }
    }
    assert !Invalidating(d.stack, x);
    ShowsTests(d.heap[x], 0, 0, 0, false);
  }

  lemma ReleasedKeeps(s: State, k: Kind, x: ObjId, o: ObjId)
    requires x in s.heap && CountersExact(s, Debt(k, x), x) && Sound(Release(s, k, x), NoDebt)
    requires Kept(s, o) || o == x
    ensures Kept(Release(s, k, x), o)
  {
    if o == x {
      ReleaseKeeps(s, k, x);
    } else {
      ReleaseGrows(s, k, x);
      StackGrows(s, Release(s, k, x), o);
    }
  }

  lemma DestroyMemberKeeps(s: State, p: PtrId, o: ObjId)
    requires Sound(s, NoDebt) && p in s.pointers && Sound(DestroyMember(s, p), NoDebt) && Kept(s, o)
    ensures Kept(DestroyMember(s, p), o)
  {
    PointerGone(s, p);
    var k, x := s.pointers[p].kind, s.pointers[p].target;
    var g := s.(pointers := s.pointers - {p});
    assert CountersExact(g, Debt(k, x), x);
    if o != x && Pointed(s, o) {
      var q :| q in s.pointers && s.pointers[q].target == o;
      assert q in g.pointers && g.pointers[q].target == o;
    }
    ReleasedKeeps(g, k, x, o);
  }

  lemma PopKeeps(s: State, t: State, o: ObjId)
    requires s.stack != [] && t.stack == Rest(s.stack) && t.pointers == s.pointers && Kept(s, o) && Top(s.stack).obj != o
    ensures Kept(t, o)
  {
    if i :| 0 <= i < |s.stack| && s.stack[i].obj == o { assert t.stack[i].obj == o; }
  }

  lemma FinishFrameKeeps(s: State, o: ObjId)
    requires Sound(s, NoDebt) && Limited(s) && s.stack != [] && Sound(FinishFrame(s), NoDebt) && Kept(s, o) && o in FinishFrame(s).heap
    ensures Kept(FinishFrame(s), o)
  {
    assert FrameSound(s, NoDebt, s.stack[|s.stack| - 1]);
    var x := Top(s.stack).obj;
    if Top(s.stack).Delete? {
      PopKeeps(s, FinishFrame(s), o);
    } else {
      PopInvalidateSound(s, x, Top(s.stack).lost);
      BusyMeans(s, x);
      assert CountersExact(Invalidated(s), Debt(Ref, x), x);
      if o != x { PopKeeps(s, Invalidated(s), o); }
      ReleasedKeeps(Invalidated(s), Ref, x, o);
    }
  }

  lemma AssignKeeps(s: State, p: PtrId, x: ObjId, o: ObjId)
    requires Sound(s, NoDebt) && Limited(s) && Allowed(s, Assign(p, x)) && Limited(Perform(s, Assign(p, x)))
    requires Sound(Perform(s, Assign(p, x)), NoDebt) && Kept(s, o)
    ensures Kept(Perform(s, Assign(p, x)), o)
  {
    var was := s.pointers[p];
    if was.target == x {
      AssignSelf(s, p);
    } else {
      var t := Acquire(Retargeted(s, p, x), was.kind, x);
      AssignLimits(s, p, x);
      RetargetSound(s, p, x);
      assert CountersExact(t, Debt(was.kind, was.target), was.target);
      if o != was.target && Pointed(s, o) {
        var q :| q in s.pointers && s.pointers[q].target == o;
        assert q in t.pointers && t.pointers[q].target == o;
      }
      ReleasedKeeps(t, was.kind, was.target, o);
    }
  }

  lemma MakeKeeps(s: State, p: PtrId, k: Kind, x: ObjId, holder: Holder, o: ObjId)
    requires Allowed(s, Make(p, k, x, holder)) && Kept(s, o)
    ensures Kept(Perform(s, Make(p, k, x, holder)), o)
  {
    if q :| q in s.pointers && s.pointers[q].target == o {
      assert q in Perform(s, Make(p, k, x, holder)).pointers;
    }
  }

  /** The step brings no object into being and forgets none that was. */
  ghost predicate NoneAdded(s: State, t: State) {
    t.heap.Keys <= s.heap.Keys && t.used == s.used
  }

  lemma ReleaseAdds(s: State, k: Kind, x: ObjId)
    ensures Release(s, k, x).heap.Keys == s.heap.Keys && Release(s, k, x).used == s.used
  {}

  lemma DestroyMemberAdds(s: State, p: PtrId)
    requires p in s.pointers
    ensures NoneAdded(s, DestroyMember(s, p))
  {
    ReleaseAdds(s.(pointers := s.pointers - {p}), s.pointers[p].kind, s.pointers[p].target);
  }

  lemma FinishFrameAdds(s: State)
    requires s.stack != []
    ensures NoneAdded(s, FinishFrame(s))
  {
    if Top(s.stack).Invalidate? && Top(s.stack).obj in s.heap { ReleaseAdds(Invalidated(s), Ref, Top(s.stack).obj); }
  }

  lemma AssignAdds(s: State, p: PtrId, x: ObjId)
    requires Allowed(s, Assign(p, x))
    ensures NoneAdded(s, Perform(s, Assign(p, x)))
  {
    var was := s.pointers[p];
    ReleaseAdds(Acquire(s.(pointers := s.pointers[p := was.(target := x)]), was.kind, x), was.kind, was.target);
  }

  /** `o` has been pointed to: it is gone for good, or accounted for. */
  ghost predicate Settled(s: State, o: ObjId) {
    o in s.used && (o in s.heap ==> Kept(s, o))
  }

  lemma CascadeSettled(s: State, t: State, o: ObjId)
    requires Sound(s, NoDebt) && Sound(t, NoDebt) && Limited(s) && Cascade(s, t) && Settled(s, o)
    ensures Settled(t, o)
  {
    var x := s.stack[|s.stack| - 1].obj;
    if exists p :: Holds(s, x, p) {
      var p :| Holds(s, x, p) && t == DestroyMember(s, p);
      DestroyMemberAdds(s, p);
      if o in t.heap { DestroyMemberKeeps(s, p, o); }
    } else {
      FinishFrameAdds(s);
      if o in t.heap { FinishFrameKeeps(s, o); }
    }
  }

  lemma ActionSettled(s: State, a: Action, o: ObjId)
    requires Sound(s, NoDebt) && Limited(s) && Allowed(s, a) && Limited(Perform(s, a)) && Sound(Perform(s, a), NoDebt) && Settled(s, o)
    ensures Settled(Perform(s, a), o)
  {
    match a
    case New(_) =>
    case Make(p, k, x, holder) => if o in s.heap { MakeKeeps(s, p, k, x, holder, o); }
    case Assign(p, x) =>
      AssignAdds(s, p, x);
      if o in s.heap { AssignKeeps(s, p, x, o); }
    case Drop(p) =>
      DestroyMemberAdds(s, p);
      if o in s.heap { DestroyMemberKeeps(s, p, o); }
  }

  /** No step loses track of an object. */
  lemma NextSettled(s: State, t: State, o: ObjId)
    requires Sound(s, NoDebt) && Sound(t, NoDebt) && Limited(s) && Limited(t) && Next(s, t) && Settled(s, o)
    ensures Settled(t, o)
  {
    if Cascade(s, t) {
      CascadeSettled(s, t, o);
    } else {
      var a :| Allowed(s, a) && t == Perform(s, a);
      ActionSettled(s, a, o);
    }
  }

  /** Something pointed to `o` at some time up to step `i`. */
  ghost predicate EverPointed(run: seq<State>, i: nat, o: ObjId)
    requires i < |run|
  {
    exists j :: 0 <= j <= i && Pointed(run[j], o)
  }

  lemma PointedSettled(s: State, o: ObjId)
    requires Sound(s, NoDebt) && Pointed(s, o)
    ensures o in s.heap && Settled(s, o)
  {}

  lemma {:induction false} SettledSince(run: seq<State>, j: nat, i: nat, o: ObjId)
    requires IsRun(run) && j <= i < |run| && Settled(run[j], o)
    ensures Settled(run[i], o)
    decreases i
  {
    if j < i {
      SettledSince(run, j, i - 1, o);
      RunSettled(run, i - 1, o);
    }
  }

  lemma RunSettled(run: seq<State>, i: nat, o: ObjId)
    requires IsRun(run) && i + 1 < |run| && Settled(run[i], o)
    ensures Settled(run[i + 1], o)
  {
    RunStep(run, i);
    RunsAreSound(run, i);
    RunsAreSound(run, i + 1);
    NextSettled(run[i], run[i + 1], o);
  }

  lemma RunStep(run: seq<State>, i: nat)
    requires IsRun(run) && i + 1 < |run|
    ensures Next(run[i], run[i + 1]) && Limited(run[i]) && Limited(run[i + 1])
  {
    assert StepAt(run, i);
  }

  /** In every state of every run: an object that was ever pointed to is still pointed to, or its
      destruction is under way, or it is gone. */
  lemma NothingLeaks(run: seq<State>, i: nat, o: ObjId)
    requires IsRun(run) && i < |run| && EverPointed(run, i, o)
    ensures o !in run[i].heap || Pointed(run[i], o) || OnStack(run[i].stack, o)
  {
    var j :| 0 <= j <= i && Pointed(run[j], o);
    assert Settled(run[j], o) by {
      RunsAreSound(run, j);
      PointedSettled(run[j], o);
    }
    SettledSince(run, j, i, o);
  }

  /** So with no destruction in progress the objects ever pointed to that still exist are exactly those
      pointed to. */
  lemma AliveIffPointed(run: seq<State>, i: nat, o: ObjId)
    requires IsRun(run) && i < |run| && EverPointed(run, i, o) && run[i].stack == []
    ensures o in run[i].heap <==> Pointed(run[i], o)
  {
    NothingLeaks(run, i, o);
    RunsAreSound(run, i);
  }

  // ---------------------------------------------------------------- what a destruction leaves

  lemma StackKept(s: State, t: State, f: Frame)
    requires s.stack <= t.stack
    ensures f in s.stack ==> f in t.stack
  {
    if i :| 0 <= i < |s.stack| && s.stack[i] == f { assert t.stack[i] == f; }
  }

  ghost predicate TopHolds(s: State) {
    s.stack != [] && exists q :: Holds(s, Top(s.stack).obj, q)
  }

  lemma FinishFramePops(s: State)
    requires s.stack != []
    ensures Rest(s.stack) <= FinishFrame(s).stack && FinishFrame(s).pointers == s.pointers
  {
    if Top(s.stack).Invalidate? && Top(s.stack).obj in s.heap { ReleaseGrows(Invalidated(s), Ref, Top(s.stack).obj); }
  }

  lemma ActionGrows(s: State, a: Action)
    requires Allowed(s, a)
    ensures s.stack <= Perform(s, a).stack
  {}

  lemma NotTop(stack: seq<Frame>, f: Frame)
    requires stack != [] && f in stack
    ensures f in Rest(stack) || f == Top(stack)
  {
    var i :| 0 <= i < |stack| && stack[i] == f;
    if i < |stack| - 1 { assert Rest(stack)[i] == f; }
  }

  /** When the destruction of an object ends, it holds nothing any more. */
  lemma ContentsGone(s: State, t: State, f: Frame, p: PtrId)
    requires Next(s, t) && f in s.stack && f !in t.stack
    ensures !Holds(t, f.obj, p)
  {
    if Cascade(s, t) && !TopHolds(s) {
      FinishFramePops(s);
      NotTop(s.stack, f);
      StackKept(s.(stack := Rest(s.stack)), t, f);
      assert !Holds(s, f.obj, p);
    } else {
      Unpopped(s, t);
      StackKept(s, t, f);
    }
  }

  lemma Unpopped(s: State, t: State)
    requires Next(s, t) && (Cascade(s, t) ==> TopHolds(s))
    ensures s.stack <= t.stack
  {
    if Cascade(s, t) {
      var q :| Holds(s, s.stack[|s.stack| - 1].obj, q) && t == DestroyMember(s, q);
      ReleaseGrows(s.(pointers := s.pointers - {q}), s.pointers[q].kind, s.pointers[q].target);
    } else {
      var a :| Allowed(s, a) && t == Perform(s, a);
      ActionGrows(s, a);
    }
  }
}
