/** The pointer operations as programs: counters updated in place, destruction by recursion.

    The stack of unfinished destructions of the state machine is the call stack here, so it is
    ghost.  Every operation carries out a run of that machine to its end. */
module SafePtrMachine {
  import opened Wrappers
  import opened SafePtr
  import opened SafePtrTheory

  ghost predicate IsCascade(run: seq<State>) {
    run != [] && forall i :: 0 < i < |run| ==> Cascade(run[i - 1], run[i])
  }

  /** `run` leads from `s` to `t` by steps of destruction. */
  ghost predicate Leads(run: seq<State>, s: State, t: State) {
    IsCascade(run) && run[0] == s && run[|run| - 1] == t
  }

  lemma LeadsOn(a: seq<State>, b: seq<State>, s: State, t: State, u: State)
    requires Leads(a, s, t) && IsCascade(b) && Cascade(t, b[0]) && b[|b| - 1] == u
    ensures Leads(a + b, s, u)
  {
    var run := a + b;
    forall i | 0 < i < |run|
      ensures Cascade(run[i - 1], run[i])
    {
      if i > |a| { assert run[i - 1] == b[i - 1 - |a|] && run[i] == b[i - |a|]; }
    }
  }

  class Runtime {
    var heap: map<ObjId, Counters>
    var pointers: map<PtrId, Pointer>
    var used: set<ObjId>
    var failed: bool
    ghost var stack: seq<Frame>

    ghost function Value(): State
      reads this
    {
      State(heap, pointers, stack, used, failed)
    }

    constructor ()
      ensures Value() == INITIAL
    {
      heap, pointers, used, failed, stack := map[], map[], {}, false, [];
    }

    /** Gives up one pointer of kind `k` to `o` and finishes what that starts. */
    method ReleasePtr(k: Kind, o: ObjId) returns (ghost run: seq<State>)
      modifies this
      ensures Leads(run, Release(old(Value()), k, o), Value())
      ensures stack == old(stack) && |pointers| <= |old(pointers)|
      decreases Work(Value()) + (if k == Ref then 1 else 2), 1
    {
      if o !in heap {
        failed := true;
        return [Value()];
      }
      heap := heap[o := Decrement(heap[o], k)];
      var c := heap[o];
      if k == Ref {
        if c.refData == 0 && AllOwners(c.objData) == 0 {
          run := DeleteThis(o);
        } else {
          run := [Value()];
        }
      } else if Masked(c.objData, k) != 0 {
        run := [Value()];
      } else if AllOwners(c.objData) == 0 && c.refData == 0 {
        run := DeleteThis(o);
      } else if IsBusy(c.objData) {
        run := [Value()];
      } else {
        heap := heap[o := StartInvalidation(c)];
        PushWeight(stack, Invalidate(o, k));
        stack := stack + [Invalidate(o, k)];
        run := Invalidation(o, k);
      }
    }

    method DeleteThis(o: ObjId) returns (ghost run: seq<State>)
      requires o in heap
      modifies this
      ensures Leads(run, StartDelete(old(Value()), o), Value())
      ensures stack == old(stack) && |pointers| <= |old(pointers)|
      decreases Work(Value()) + 1, 0
    {
      if IsBusy(heap[o].objData) {
        failed := true;
        return [Value()];
      }
      PushWeight(stack, Delete(o));
      stack := stack + [Delete(o)];
      run := DestroyContents(o);
      ghost var s := Value();
      if o !in heap {
        failed := true;
      } else {
        heap := heap - {o};
      }
      stack := Rest(stack);
      assert Value() == FinishFrame(s);
      LeadsOn(run, [Value()], run[0], s, Value());
      run := run + [Value()];
    }

    method Invalidation(o: ObjId, k: Kind) returns (ghost run: seq<State>)
      requires k != Ref && stack != [] && Top(stack) == Invalidate(o, k)
      modifies this
      ensures Leads(run, old(Value()), Value())
      ensures stack == Rest(old(stack)) && |pointers| <= |old(pointers)|
      decreases Work(Value()), 0
    {
      run := DestroyContents(o);
      ghost var s := Value();
      stack := Rest(stack);
      if o !in heap || Masked(heap[o].objData, k) != 0 {
        failed := true;
        assert Value() == FinishFrame(s);
        LeadsOn(run, [Value()], run[0], s, Value());
        run := run + [Value()];
      } else {
        heap := heap[o := heap[o].(objData := ClearFlag(heap[o].objData, BUSY))];
        ghost var rest := ReleasePtr(Ref, o);
        LeadsOn(run, rest, run[0], s, Value());
        run := run + rest;
      }
    }

    /** Destroys the members of the object on top of the stack, in any order. */
    method DestroyContents(o: ObjId) returns (ghost run: seq<State>)
      requires stack != [] && Top(stack).obj == o
      modifies this
      ensures Leads(run, old(Value()), Value())
      ensures stack == old(stack) && |pointers| <= |old(pointers)| && !exists p :: Holds(Value(), o, p)
      decreases Work(Value()), -1
    {
      run := [Value()];
      var held := set p | p in pointers && pointers[p].holder == Member(o);
      while held != {}
        invariant Leads(run, old(Value()), Value())
        invariant stack == old(stack) && |pointers| <= |old(pointers)|
        invariant held == set p | p in pointers && pointers[p].holder == Member(o)
        decreases |pointers|
      {
        var p :| p in held;
        ghost var s := Value();
        assert Holds(s, o, p) && Cascade(s, DestroyMember(s, p));
        var ptr := pointers[p];
        assert pointers.Keys == (pointers - {p}).Keys + {p};
        pointers := pointers - {p};
        ghost var rest := ReleasePtr(ptr.kind, ptr.target);
        LeadsOn(run, rest, run[0], s, Value());
        run := run + rest;
        held := set p | p in pointers && pointers[p].holder == Member(o);
      }
      forall p
        ensures !Holds(Value(), o, p)
      {
        assert p !in held;
      }
    }

    // -------------------------------------------------------------- what programs call

    // Also from destructors: what is in progress then stays in progress, and what the call itself
    // starts is finished when it returns.

    method Create(o: ObjId)
      requires Allowed(Value(), New(o))
      modifies this
      ensures Value() == Perform(old(Value()), New(o))
    {
      heap, used := heap[o := Counters(0, 0)], used + {o};
    }

    /** A null pointer is one that the table does not list; it holds nothing and counts nowhere. */
    method MakePtr(p: PtrId, k: Kind, o: Option<ObjId>, holder: Holder)
      requires p !in pointers && Nullable(Value(), p, k, o, holder)
      modifies this
      ensures Value() == Setting(old(Value()), p, k, o, holder)
    {
      if o.Some? {
        pointers := pointers[p := Pointer(k, o.value, holder)];
        heap := heap[o.value := AddRef(heap[o.value], k)];
      }
    }

    /** The new object is acquired before the old one is released; either may be null. */
    method SetObject(p: PtrId, k: Kind, o: Option<ObjId>, holder: Holder) returns (ghost run: seq<State>)
      requires Nullable(Value(), p, k, o, holder)
      modifies this
      ensures Leads(run, Setting(old(Value()), p, k, o, holder), Value()) && stack == old(stack)
    {
      var was := if p in pointers then Some(pointers[p].target) else None;
      pointers := if o.Some? then pointers[p := Pointer(k, o.value, holder)] else pointers - {p};
      if o.Some? {
        heap := heap[o.value := AddRef(heap[o.value], k)];
      }
      if was.Some? {
        run := ReleasePtr(k, was.value);
      } else {
        assert o.None? ==> pointers == old(pointers);
        run := [Value()];
      }
    }

    /** Destroying a null pointer does nothing. */
    method DestroyPtr(p: PtrId) returns (ghost run: seq<State>)
      modifies this
      ensures Leads(run, if p in old(pointers) then Perform(old(Value()), Drop(p)) else old(Value()), Value())
      ensures stack == old(stack) && (p !in old(pointers) ==> Value() == old(Value()))
    {
      if p !in pointers {
        return [Value()];
      }
      var ptr := pointers[p];
      pointers := pointers - {p};
      run := ReleasePtr(ptr.kind, ptr.target);
    }
  }

  /** Kind and holder of a pointer are fixed; what it is set to is null or may be pointed to. */
  predicate Nullable(s: State, p: PtrId, k: Kind, o: Option<ObjId>, holder: Holder) {
    && (p in s.pointers ==> s.pointers[p].kind == k && s.pointers[p].holder == holder)
    && (o.Some? ==> MayPoint(s, k, o.value)) && (holder.Outside? || holder.obj in s.heap)
  }

  /** The action that setting a pointer amounts to; none if it was null and stays null. */
  function SettingAction(s: State, p: PtrId, k: Kind, o: Option<ObjId>, holder: Holder): Option<Action> {
    match o
    case None => if p in s.pointers then Some(Drop(p)) else None
    case Some(x) => Some(if p in s.pointers then Assign(p, x) else Make(p, k, x, holder))
  }

  ghost function Setting(s: State, p: PtrId, k: Kind, o: Option<ObjId>, holder: Holder): State
    requires Nullable(s, p, k, o, holder)
  {
    match SettingAction(s, p, k, o, holder)
    case None => s
    case Some(a) => Perform(s, a)
  }

  // ---------------------------------------------------------------- operations extend runs

  /** Destruction only removes pointers and objects, so no limit is exceeded by it. */
  lemma CascadeLimited(s: State, t: State)
    requires Limited(s) && Cascade(s, t)
    ensures Limited(t)
  {
    assert t.heap.Keys <= s.heap.Keys && t.pointers.Keys <= s.pointers.Keys
      && forall p :: p in t.pointers ==> t.pointers[p] == s.pointers[p] by { CascadeShrinks(s, t); }
    forall o | o in t.heap
      ensures InLimits(t.pointers, o)
    {
      assert InLimits(s.pointers, o);
      FewerPointers(t.pointers, s.pointers, Owner, o);
      FewerPointers(t.pointers, s.pointers, MultiOwner, o);
      FewerPointers(t.pointers, s.pointers, Ref, o);
    }
  }

  lemma CascadeShrinks(s: State, t: State)
    requires Cascade(s, t)
    ensures t.heap.Keys <= s.heap.Keys && t.pointers.Keys <= s.pointers.Keys
    ensures forall p :: p in t.pointers ==> t.pointers[p] == s.pointers[p]
  {
    var o := s.stack[|s.stack| - 1].obj;
    if exists p :: Holds(s, o, p) {
      var p :| Holds(s, o, p) && t == DestroyMember(s, p);
      ReleaseKeepsHeap(s.(pointers := s.pointers - {p}), s.pointers[p].kind, s.pointers[p].target);
    } else if Top(s.stack).Invalidate? && o in s.heap {
      ReleaseKeepsHeap(Invalidated(s), Ref, o);
    }
  }

  lemma FewerPointers(few: map<PtrId, Pointer>, many: map<PtrId, Pointer>, k: Kind, o: ObjId)
    requires few.Keys <= many.Keys && forall p :: p in few ==> few[p] == many[p]
    ensures Count(few, k, o) <= Count(many, k, o)
  {
    var a, b := Pointing(few, k, o), Pointing(many, k, o);
    assert a <= b;
    assert b == a + (b - a);
    assert |b| == |a| + |b - a|;
  }

  lemma {:induction false} LeadsLimited(run: seq<State>, i: nat)
    requires IsCascade(run) && i < |run| && Limited(run[0])
    ensures Limited(run[i])
  {
    if i > 0 {
      LeadsLimited(run, i - 1);
      CascadeLimited(run[i - 1], run[i]);
    }
  }

  /** A run of the machine extended by one operation of a program is a run of the machine, as long
      as the operation itself exceeds no limit; so all that holds of runs holds after it. */
  lemma OperationExtendsRun(run: seq<State>, a: Action, cascade: seq<State>, t: State)
    requires IsRun(run) && Allowed(run[|run| - 1], a) && Leads(cascade, Perform(run[|run| - 1], a), t)
    requires Limited(Perform(run[|run| - 1], a))
    ensures IsRun(run + cascade) && Sound(t, NoDebt)
  {
    var longer := run + cascade;
    forall i | 0 <= i < |longer| - 1
      ensures StepAt(longer, i)
    {
      if i < |run| - 1 {
        assert StepAt(run, i);
      } else if i >= |run| {
        assert Cascade(cascade[i + 1 - |run| - 1], cascade[i + 1 - |run|]);
      }
    }
    forall i | 0 <= i < |cascade|
      ensures Limited(cascade[i])
    {
      LeadsLimited(cascade, i);
    }
    RunsAreSound(longer, |longer| - 1);
  }
}
