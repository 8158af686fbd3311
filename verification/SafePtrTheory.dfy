/** Every run of pointer operations keeps the counters exact and never touches a dead object. */
module SafePtrTheory {
  import opened SafePtr

  // ---------------------------------------------------------------- the packed word

  function Bit(b: bool): nat { if b then 1 else 0 }

  function Pack(owners: nat, multi: nat, busy: bool, invalid: bool): nat {
    owners + multi * UNIT_M + Bit(busy) * BUSY + Bit(invalid) * INVALID
  }

  predicate InRange(owners: nat, multi: nat) {
    owners < UNIT_M && multi < 0x400
  }

  /** The four fields can be read back from the word. */
  lemma Unpack(owners: nat, multi: nat, busy: bool, invalid: bool)
    requires InRange(owners, multi)
    ensures var d := Pack(owners, multi, busy, invalid);
      && d < WORD
      && Owners(d) == owners && MultiOwners(d) == multi
      && IsBusy(d) == busy && IsInvalid(d) == invalid
      && AllOwners(d) == owners + multi * UNIT_M
  {}

  /** Beyond the range the fields run into each other: the 2^20-th TObj shows up as a TMObj. */
  lemma OwnerOverflow(multi: nat)
    requires multi + 1 < 0x400
    ensures var d := AddRef(Counters(Pack(UNIT_M - 1, multi, false, false), 0), Owner).objData;
      Owners(d) == 0 && MultiOwners(d) == multi + 1
  {}

  lemma FieldOps(owners: nat, multi: nat, busy: bool, invalid: bool)
    requires InRange(owners, multi)
    ensures var d := Pack(owners, multi, busy, invalid);
      && (owners + 1 < UNIT_M ==> (d + 1) % WORD == Pack(owners + 1, multi, busy, invalid))
      && (multi + 1 < 0x400 ==> (d + UNIT_M) % WORD == Pack(owners, multi + 1, busy, invalid))
      && (owners > 0 ==> (d - 1) % WORD == Pack(owners - 1, multi, busy, invalid))
      && (multi > 0 ==> (d - UNIT_M) % WORD == Pack(owners, multi - 1, busy, invalid))
  {
    Unpack(owners, multi, busy, invalid);
  }

  lemma FlagOps(owners: nat, multi: nat, busy: bool, invalid: bool)
    requires InRange(owners, multi)
    ensures var d := Pack(owners, multi, busy, invalid);
      && SetFlag(SetFlag(d, BUSY), INVALID) == Pack(owners, multi, true, true)
      && ClearFlag(d, BUSY) == Pack(owners, multi, false, invalid)
  {
    Unpack(owners, multi, busy, invalid);
    Unpack(owners, multi, true, invalid);
  }

  // ---------------------------------------------------------------- counting pointers

  ghost function Pointing(m: map<PtrId, Pointer>, k: Kind, o: ObjId): set<PtrId> {
    set p | p in m && m[p].kind == k && m[p].target == o
  }

  ghost function Count(m: map<PtrId, Pointer>, k: Kind, o: ObjId): nat {
    |Pointing(m, k, o)|
  }

  lemma CountRemoved(m: map<PtrId, Pointer>, p: PtrId, k: Kind, o: ObjId)
    requires p in m
    ensures Count(m, k, o) == Count(m - {p}, k, o) + Bit(m[p].kind == k && m[p].target == o)
  {
    assert Pointing(m - {p}, k, o) == Pointing(m, k, o) - {p};
  }

  lemma CountAdded(m: map<PtrId, Pointer>, p: PtrId, x: Pointer, k: Kind, o: ObjId)
    requires p !in m
    ensures Count(m[p := x], k, o) == Count(m, k, o) + Bit(x.kind == k && x.target == o)
  {
    CountRemoved(m[p := x], p, k, o);
    assert m[p := x] - {p} == m;
  }

  // ---------------------------------------------------------------- the invariant

  /** A reference that is still counted although its pointer is gone. */
  datatype Debt = NoDebt | Debt(k: Kind, o: ObjId)

  ghost predicate Invalidating(stack: seq<Frame>, o: ObjId) {
    exists i :: 0 <= i < |stack| && stack[i].Invalidate? && stack[i].obj == o
  }

  ghost function Expected(s: State, debt: Debt, k: Kind, o: ObjId): nat {
    Count(s.pointers, k, o) + Bit(debt == Debt(k, o))
  }

  /** The counters show these numbers of TObj, TMObj and TPtr pointers; a temporary reference
      protects an object while it is invalidated. */
  ghost predicate Shows(c: Counters, owners: nat, multi: nat, refs: nat, busy: bool) {
    && InRange(owners, multi)
    && (busy ==> IsInvalid(c.objData))
    && c.objData == Pack(owners, multi, busy, IsInvalid(c.objData))
    && c.refData == refs + Bit(busy) < WORD
  }

  ghost predicate CountersExact(s: State, debt: Debt, o: ObjId)
    requires o in s.heap
  {
    Shows(s.heap[o], Expected(s, debt, Owner, o), Expected(s, debt, MultiOwner, o), Expected(s, debt, Ref, o),
          Invalidating(s.stack, o))
  }

  /** A destruction in progress: the object still exists, and nothing (of the kind it lost)
      points to it. */
  ghost predicate FrameSound(s: State, debt: Debt, f: Frame) {
    && f.obj in s.heap
    && match f
       case Delete(o) => forall k :: Expected(s, debt, k, o) == 0
       case Invalidate(o, k) => k != Ref && Expected(s, debt, k, o) == 0
  }

  ghost predicate TargetsLive(s: State) {
    forall p :: p in s.pointers ==> s.pointers[p].target in s.heap
  }

  ghost predicate HoldersLive(s: State) {
    forall p :: p in s.pointers && s.pointers[p].holder.Member? ==> s.pointers[p].holder.obj in s.heap
  }

  ghost predicate FramesSound(s: State, debt: Debt) {
    forall i :: 0 <= i < |s.stack| ==> FrameSound(s, debt, s.stack[i])
  }

  /** No object is destroyed twice, nor invalidated while it is being destroyed. */
  ghost predicate FramesDistinct(stack: seq<Frame>) {
    forall i, j :: 0 <= i < j < |stack| ==> stack[i].obj != stack[j].obj
  }

  ghost predicate AllExact(s: State, debt: Debt) {
    forall o :: o in s.heap ==> CountersExact(s, debt, o)
  }

  ghost predicate Sound(s: State, debt: Debt) {
    && !s.failed
    && s.heap.Keys <= s.used
    && (debt.Debt? ==> debt.o in s.heap)
    && TargetsLive(s) && HoldersLive(s)
    && FramesSound(s, debt) && FramesDistinct(s.stack)
    && AllExact(s, debt)
  }

  /** Few enough pointers to `o` for the fields that count them. */
  ghost predicate InLimits(m: map<PtrId, Pointer>, o: ObjId) {
    Count(m, Owner, o) < UNIT_M && Count(m, MultiOwner, o) < 0x400 && Count(m, Ref, o) + 1 < WORD
  }

  ghost predicate Limited(s: State) {
    forall o :: o in s.heap ==> InLimits(s.pointers, o)
  }

  // ---------------------------------------------------------------- releasing

  ghost predicate OnStack(stack: seq<Frame>, o: ObjId) {
    exists i :: 0 <= i < |stack| && stack[i].obj == o
  }

  lemma ShowsDecrement(c: Counters, k: Kind, owners: nat, multi: nat, refs: nat, busy: bool)
    requires Shows(c, owners + Bit(k == Owner), multi + Bit(k == MultiOwner), refs + Bit(k == Ref), busy)
    ensures Shows(Decrement(c, k), owners, multi, refs, busy)
    ensures IsInvalid(Decrement(c, k).objData) == IsInvalid(c.objData)
  {
    FieldOps(owners + Bit(k == Owner), multi + Bit(k == MultiOwner), busy, IsInvalid(c.objData));
    Unpack(owners, multi, busy, IsInvalid(c.objData));
  }

  lemma ShowsIncrement(c: Counters, k: Kind, owners: nat, multi: nat, refs: nat, busy: bool)
    requires Shows(c, owners, multi, refs, busy)
    requires InRange(owners + Bit(k == Owner), multi + Bit(k == MultiOwner)) && refs + Bit(k == Ref) + Bit(busy) < WORD
    ensures Shows(AddRef(c, k), owners + Bit(k == Owner), multi + Bit(k == MultiOwner), refs + Bit(k == Ref), busy)
    ensures IsInvalid(AddRef(c, k).objData) == IsInvalid(c.objData)
  {
    FieldOps(owners, multi, busy, IsInvalid(c.objData));
    Unpack(owners + Bit(k == Owner), multi + Bit(k == MultiOwner), busy, IsInvalid(c.objData));
  }

  lemma ShowsInvalidation(c: Counters, owners: nat, multi: nat, refs: nat)
    requires Shows(c, owners, multi, refs, false) && refs + 1 < WORD
    ensures Shows(StartInvalidation(c), owners, multi, refs, true) && IsInvalid(StartInvalidation(c).objData)
  {
    FlagOps(owners, multi, false, IsInvalid(c.objData));
    Unpack(owners, multi, true, true);
  }

  /** When invalidation ends the flag goes and the temporary reference is still to be released. */
  lemma ShowsInvalidated(c: Counters, owners: nat, multi: nat, refs: nat)
    requires Shows(c, owners, multi, refs, true)
    ensures Shows(c.(objData := ClearFlag(c.objData, BUSY)), owners, multi, refs + 1, false)
    ensures IsInvalid(ClearFlag(c.objData, BUSY))
  {
    FlagOps(owners, multi, true, true);
    Unpack(owners, multi, false, true);
  }

  /** What the tests of the original on the packed word mean. */
  lemma ShowsTests(c: Counters, owners: nat, multi: nat, refs: nat, busy: bool)
    requires Shows(c, owners, multi, refs, busy)
    ensures Masked(c.objData, Owner) == owners && Masked(c.objData, MultiOwner) == multi
    ensures AllOwners(c.objData) == 0 <==> owners == 0 && multi == 0
    ensures IsBusy(c.objData) == busy
  {
    Unpack(owners, multi, busy, IsInvalid(c.objData));
  }

  lemma DecrementExact(s: State, k: Kind, o: ObjId, x: ObjId)
    requires o in s.heap && x in s.heap && CountersExact(s, Debt(k, o), x)
    ensures CountersExact(s.(heap := s.heap[o := Decrement(s.heap[o], k)]), NoDebt, x)
  {
    if x == o {
      ShowsDecrement(s.heap[o], k, Count(s.pointers, Owner, o), Count(s.pointers, MultiOwner, o),
                     Count(s.pointers, Ref, o), Invalidating(s.stack, o));
    }
  }

  lemma DecrementSound(s: State, k: Kind, o: ObjId)
    requires Sound(s, Debt(k, o))
    ensures Sound(s.(heap := s.heap[o := Decrement(s.heap[o], k)]), NoDebt)
  {
    var t := s.(heap := s.heap[o := Decrement(s.heap[o], k)]);
    forall x | x in t.heap
      ensures CountersExact(t, NoDebt, x)
    {
      DecrementExact(s, k, o, x);
    }
    forall i | 0 <= i < |t.stack|
      ensures FrameSound(t, NoDebt, t.stack[i])
    {
      DecrementFrame(s, k, o, s.stack[i]);
    }
  }

  lemma DecrementFrame(s: State, k: Kind, o: ObjId, f: Frame)
    requires o in s.heap && FrameSound(s, Debt(k, o), f)
    ensures FrameSound(s.(heap := s.heap[o := Decrement(s.heap[o], k)]), NoDebt, f)
    ensures f != Delete(o)
  {
    var t := s.(heap := s.heap[o := Decrement(s.heap[o], k)]);
    forall l
      ensures Expected(s, Debt(k, o), l, f.obj) == Expected(t, NoDebt, l, f.obj) + Bit(l == k && f.obj == o)
    {}
    assert Expected(s, Debt(k, o), k, o) > 0;
  }

  /** An object that is not being destroyed may start to be. */
  lemma PushSound(s: State, f: Frame, c: Counters)
    requires Sound(s, NoDebt) && f.obj in s.heap && !OnStack(s.stack, f.obj)
    requires FrameSound(s, NoDebt, f)
    requires var o := f.obj;
      Shows(c, Count(s.pointers, Owner, o), Count(s.pointers, MultiOwner, o), Count(s.pointers, Ref, o), f.Invalidate?)
    ensures Sound(s.(heap := s.heap[f.obj := c], stack := s.stack + [f]), NoDebt)
  {
    var t := s.(heap := s.heap[f.obj := c], stack := s.stack + [f]);
    forall x | x in t.heap
      ensures CountersExact(t, NoDebt, x)
    {
      PushExact(s, f, c, x);
    }
    forall i | 0 <= i < |t.stack|
      ensures FrameSound(t, NoDebt, t.stack[i])
    {
      if i < |s.stack| {
        assert FrameSound(s, NoDebt, s.stack[i]);
        FrameKept(s, t, s.stack[i]);
      } else {
        FrameKept(s, t, f);
      }
    }
  }

  lemma FrameKept(s: State, t: State, f: Frame)
    requires FrameSound(s, NoDebt, f) && t.pointers == s.pointers && f.obj in t.heap
    ensures FrameSound(t, NoDebt, f)
  {
    assert forall k :: Expected(t, NoDebt, k, f.obj) == Expected(s, NoDebt, k, f.obj);
  }

  lemma PushExact(s: State, f: Frame, c: Counters, x: ObjId)
    requires f.obj in s.heap && x in s.heap && CountersExact(s, NoDebt, x) && !OnStack(s.stack, f.obj)
    requires var o := f.obj;
      Shows(c, Count(s.pointers, Owner, o), Count(s.pointers, MultiOwner, o), Count(s.pointers, Ref, o), f.Invalidate?)
    ensures CountersExact(s.(heap := s.heap[f.obj := c], stack := s.stack + [f]), NoDebt, x)
  {
    PushInvalidating(s.stack, f, x);
  }

  lemma PushInvalidating(stack: seq<Frame>, f: Frame, x: ObjId)
    ensures Invalidating(stack + [f], x) <==> Invalidating(stack, x) || (f.Invalidate? && f.obj == x)
  {
    var t := stack + [f];
    assert t[|stack|] == f;
    assert forall i :: 0 <= i < |stack| ==> t[i] == stack[i];
  }

  /** An object with a live reference is not being deleted; if it is being invalidated, its
      counters say so. */
  lemma NotOnStack(s: State, o: ObjId)
    requires Sound(s, NoDebt) && !Invalidating(s.stack, o)
    requires forall i :: 0 <= i < |s.stack| ==> s.stack[i] != Delete(o)
    ensures !OnStack(s.stack, o)
  {}

  lemma ReleaseSound(s: State, k: Kind, o: ObjId)
    requires Sound(s, Debt(k, o)) && Count(s.pointers, Ref, o) + 1 < WORD
    ensures Sound(Release(s, k, o), NoDebt)
  {
    var t := s.(heap := s.heap[o := Decrement(s.heap[o], k)]);
    DecrementSound(s, k, o);
    forall i | 0 <= i < |s.stack|
      ensures s.stack[i] != Delete(o)
    {
      DecrementFrame(s, k, o, s.stack[i]);
    }
    assert CountersExact(t, NoDebt, o);
    AfterDecrement(t, k, o);
  }

  lemma AfterDecrement(t: State, k: Kind, o: ObjId)
    requires Sound(t, NoDebt) && o in t.heap && CountersExact(t, NoDebt, o)
    requires forall i :: 0 <= i < |t.stack| ==> t.stack[i] != Delete(o)
    requires Count(t.pointers, Ref, o) + 1 < WORD
    ensures Sound(ReleaseComplete(t, k, o), NoDebt)
  {
    var c := t.heap[o];
    var a, b, r := Count(t.pointers, Owner, o), Count(t.pointers, MultiOwner, o), Count(t.pointers, Ref, o);
    ShowsTests(c, a, b, r, Invalidating(t.stack, o));
    if !Invalidating(t.stack, o) {
      NotOnStack(t, o);
      if a == 0 && b == 0 && r == 0 {
        DeleteSound(t, o);
      } else if k != Ref && Masked(c.objData, k) == 0 {
        ShowsInvalidation(c, a, b, r);
        PushSound(t, Invalidate(o, k), StartInvalidation(c));
      }
    }
  }

  lemma DeleteSound(t: State, o: ObjId)
    requires Sound(t, NoDebt) && o in t.heap && !OnStack(t.stack, o)
    requires forall k :: Count(t.pointers, k, o) == 0
    ensures Sound(t.(stack := t.stack + [Delete(o)]), NoDebt)
  {
    assert CountersExact(t, NoDebt, o);
    assert t.heap[o := t.heap[o]] == t.heap;
    PushSound(t, Delete(o), t.heap[o]);
  }

  // ---------------------------------------------------------------- steps keep the invariant

  /** Moving one reference from a pointer to the debt changes no expected count. */
  lemma PointerGone(s: State, p: PtrId)
    requires Sound(s, NoDebt) && p in s.pointers
    ensures Sound(s.(pointers := s.pointers - {p}), Debt(s.pointers[p].kind, s.pointers[p].target))
  {
    var t, debt := s.(pointers := s.pointers - {p}), Debt(s.pointers[p].kind, s.pointers[p].target);
    forall k, x
      ensures Expected(t, debt, k, x) == Expected(s, NoDebt, k, x)
    {
      CountRemoved(s.pointers, p, k, x);
    }
    SameExpected(s, NoDebt, t, debt);
  }

  lemma SameExpected(s: State, debt: Debt, t: State, debt': Debt)
    requires Sound(s, debt) && t.heap == s.heap && t.stack == s.stack && t.used == s.used && t.failed == s.failed
    requires forall k, x :: Expected(t, debt', k, x) == Expected(s, debt, k, x)
    requires debt'.Debt? ==> debt'.o in s.heap
    requires TargetsLive(t) && HoldersLive(t)
    ensures Sound(t, debt')
  {
    forall x | x in t.heap
      ensures CountersExact(t, debt', x)
    {
      assert CountersExact(s, debt, x);
    }
    forall i | 0 <= i < |t.stack|
      ensures FrameSound(t, debt', t.stack[i])
    {
      assert FrameSound(s, debt, s.stack[i]);
    }
  }

  lemma DestroyMemberSound(s: State, p: PtrId)
    requires Sound(s, NoDebt) && Limited(s) && p in s.pointers
    ensures Sound(DestroyMember(s, p), NoDebt)
  {
    PointerGone(s, p);
    var t, o := s.(pointers := s.pointers - {p}), s.pointers[p].target;
    CountRemoved(s.pointers, p, Ref, o);
    ReleaseSound(t, s.pointers[p].kind, o);
  }

  lemma NothingPoints(m: map<PtrId, Pointer>, k: Kind, o: ObjId, p: PtrId)
    requires Count(m, k, o) == 0 && p in m && m[p].kind == k
    ensures m[p].target != o
  {
    assert p !in Pointing(m, k, o);
  }

  ghost function Rest(stack: seq<Frame>): seq<Frame>
    requires stack != []
  {
    stack[..|stack| - 1]
  }

  ghost function Top(stack: seq<Frame>): Frame
    requires stack != []
  {
    stack[|stack| - 1]
  }

  lemma PopInvalidating(stack: seq<Frame>, x: ObjId)
    requires stack != []
    ensures Invalidating(stack, x) <==> Invalidating(Rest(stack), x) || (Top(stack).Invalidate? && Top(stack).obj == x)
  {
    assert stack == Rest(stack) + [Top(stack)];
    PushInvalidating(Rest(stack), Top(stack), x);
  }

  lemma NoTargets(s: State, o: ObjId, p: PtrId)
    requires FrameSound(s, NoDebt, Delete(o)) && p in s.pointers
    ensures s.pointers[p].target != o
  {
    assert Expected(s, NoDebt, s.pointers[p].kind, o) == 0;
    NothingPoints(s.pointers, s.pointers[p].kind, o, p);
  }

  lemma PopDeleteExact(s: State, o: ObjId, x: ObjId)
    requires s.stack != [] && Top(s.stack) == Delete(o) && x in s.heap && x != o && CountersExact(s, NoDebt, x)
    ensures CountersExact(s.(heap := s.heap - {o}, stack := Rest(s.stack)), NoDebt, x)
  {
    PopInvalidating(s.stack, x);
  }

  lemma PopDeleteSound(s: State, o: ObjId)
    requires Sound(s, NoDebt) && s.stack != [] && Top(s.stack) == Delete(o)
    requires forall p :: !Holds(s, o, p)
    ensures Sound(s.(heap := s.heap - {o}, stack := Rest(s.stack)), NoDebt)
  {
    var t := s.(heap := s.heap - {o}, stack := Rest(s.stack));
    assert FrameSound(s, NoDebt, s.stack[|s.stack| - 1]);
    forall p | p in s.pointers
      ensures s.pointers[p].target != o
    {
      NoTargets(s, o, p);
    }
    forall p | p in t.pointers && t.pointers[p].holder.Member?
      ensures t.pointers[p].holder.obj in t.heap
    {
      assert !Holds(s, o, p);
    }
    forall x | x in t.heap
      ensures CountersExact(t, NoDebt, x)
    {
      PopDeleteExact(s, o, x);
    }
    forall i | 0 <= i < |t.stack|
      ensures FrameSound(t, NoDebt, t.stack[i])
    {
      assert FrameSound(s, NoDebt, s.stack[i]);
      FrameKept(s, t, s.stack[i]);
    }
  }

  /** The object after its invalidation, with the temporary reference still counted. */
  ghost function Invalidated(s: State): State
    requires s.stack != [] && Top(s.stack).obj in s.heap
  {
    var o := Top(s.stack).obj;
    s.(heap := s.heap[o := s.heap[o].(objData := ClearFlag(s.heap[o].objData, BUSY))], stack := Rest(s.stack))
  }

  lemma PopInvalidateExact(s: State, o: ObjId, x: ObjId)
    requires s.stack != [] && Top(s.stack).Invalidate? && Top(s.stack).obj == o && o in s.heap && x in s.heap
    requires CountersExact(s, NoDebt, x) && !Invalidating(Rest(s.stack), o)
    ensures CountersExact(Invalidated(s), Debt(Ref, o), x)
  {
    PopInvalidating(s.stack, x);
    if x == o {
      ShowsInvalidated(s.heap[o], Count(s.pointers, Owner, o), Count(s.pointers, MultiOwner, o), Count(s.pointers, Ref, o));
    }
  }

  lemma PopInvalidateFrame(s: State, f: Frame, o: ObjId)
    requires FrameSound(s, NoDebt, f) && f.obj != o && s.stack != [] && Top(s.stack).obj == o && o in s.heap
    ensures FrameSound(Invalidated(s), Debt(Ref, o), f)
  {
    forall l
      ensures Expected(Invalidated(s), Debt(Ref, o), l, f.obj) == Expected(s, NoDebt, l, f.obj)
    {}
  }

  lemma PopInvalidateSound(s: State, o: ObjId, k: Kind)
    requires Sound(s, NoDebt) && s.stack != [] && Top(s.stack) == Invalidate(o, k)
    ensures o in s.heap && k != Ref && Count(s.pointers, k, o) == 0 && CountersExact(s, NoDebt, o)
    ensures Sound(Invalidated(s), Debt(Ref, o))
  {
    assert FrameSound(s, NoDebt, s.stack[|s.stack| - 1]);
    assert !Invalidating(Rest(s.stack), o);
    var t := Invalidated(s);
    forall x | x in t.heap
      ensures CountersExact(t, Debt(Ref, o), x)
    {
      PopInvalidateExact(s, o, x);
    }
    forall i | 0 <= i < |t.stack|
      ensures FrameSound(t, Debt(Ref, o), t.stack[i])
    {
      PopInvalidateFrame(s, s.stack[i], o);
    }
  }

  lemma FinishFrameSound(s: State)
    requires Sound(s, NoDebt) && Limited(s) && s.stack != []
    requires forall p :: !Holds(s, Top(s.stack).obj, p)
    ensures Sound(FinishFrame(s), NoDebt)
  {
    var f := Top(s.stack);
    assert FrameSound(s, NoDebt, s.stack[|s.stack| - 1]);
    match f
    case Delete(o) => PopDeleteSound(s, o);
    case Invalidate(o, k) =>
      PopInvalidateSound(s, o, k);
      ShowsTests(s.heap[o], Count(s.pointers, Owner, o), Count(s.pointers, MultiOwner, o), Count(s.pointers, Ref, o), Invalidating(s.stack, o));
      ReleaseSound(Invalidated(s), Ref, o);
  }

  // ---------------------------------------------------------------- actions keep the invariant

  lemma NewSound(s: State, o: ObjId)
    requires Sound(s, NoDebt) && o !in s.used
    ensures Sound(Perform(s, New(o)), NoDebt)
  {
    var t := Perform(s, New(o));
    assert FramesSound(t, NoDebt) by {
      forall i | 0 <= i < |s.stack|
        ensures FrameSound(t, NoDebt, s.stack[i])
      {
        assert FrameSound(s, NoDebt, s.stack[i]);
      }
    }
    assert AllExact(t, NoDebt) by { NewExact(s, o); }
  }

  lemma NewExact(s: State, o: ObjId)
    requires Sound(s, NoDebt) && o !in s.used
    ensures AllExact(Perform(s, New(o)), NoDebt)
  {
    var t := Perform(s, New(o));
    forall k
      ensures Count(t.pointers, k, o) == 0
    {
      assert Pointing(s.pointers, k, o) == {};
    }
    assert Pack(0, 0, false, false) == 0;
    Unpack(0, 0, false, false);
    assert !Invalidating(s.stack, o) by {
      forall i | 0 <= i < |s.stack|
        ensures s.stack[i].obj != o
      {
        assert FrameSound(s, NoDebt, s.stack[i]);
      }
    }
    forall x | x in t.heap
      ensures CountersExact(t, NoDebt, x)
    {
      if x != o { assert CountersExact(s, NoDebt, x); }
    }
  }

  /** One more pointer in `t` than in `s`, counted on top of whatever is owed. */
  lemma AcquireExact(s: State, debt: Debt, t: State, k: Kind, o: ObjId, x: ObjId)
    requires o in s.heap && x in s.heap && CountersExact(s, debt, x) && s.stack == t.stack && t.heap == s.heap
    requires forall l :: Count(t.pointers, l, x) == Count(s.pointers, l, x) + Bit(l == k && x == o)
    requires InRange(Expected(t, debt, Owner, x), Expected(t, debt, MultiOwner, x)) && Expected(t, debt, Ref, x) + 1 < WORD
    ensures CountersExact(Acquire(t, k, o), debt, x)
  {
    if x == o {
      ShowsIncrement(s.heap[o], k, Expected(s, debt, Owner, o), Expected(s, debt, MultiOwner, o),
                     Expected(s, debt, Ref, o), Invalidating(s.stack, o));
    }
  }

  lemma MakeExact(s: State, p: PtrId, k: Kind, o: ObjId, holder: Holder, x: ObjId)
    requires p !in s.pointers && o in s.heap && x in s.heap && CountersExact(s, NoDebt, x)
    requires InLimits(s.pointers[p := Pointer(k, o, holder)], x)
    ensures CountersExact(Acquire(s.(pointers := s.pointers[p := Pointer(k, o, holder)]), k, o), NoDebt, x)
  {
    var m := s.(pointers := s.pointers[p := Pointer(k, o, holder)]);
    forall l
      ensures Count(m.pointers, l, x) == Count(s.pointers, l, x) + Bit(l == k && x == o)
    {
      CountAdded(s.pointers, p, Pointer(k, o, holder), l, x);
    }
    AcquireExact(s, NoDebt, m, k, o, x);
  }

  lemma MakeSound(s: State, p: PtrId, k: Kind, o: ObjId, holder: Holder)
    requires Sound(s, NoDebt) && Allowed(s, Make(p, k, o, holder)) && Limited(Perform(s, Make(p, k, o, holder)))
    ensures Sound(Perform(s, Make(p, k, o, holder)), NoDebt)
  {
    var t := Perform(s, Make(p, k, o, holder));
    assert FramesSound(t, NoDebt) by { MakeFrames(s, p, k, o, holder, t); }
    assert AllExact(t, NoDebt) by { MakeAllExact(s, p, k, o, holder); }
    assert TargetsLive(t) && HoldersLive(t);
  }

  lemma MakeAllExact(s: State, p: PtrId, k: Kind, o: ObjId, holder: Holder)
    requires AllExact(s, NoDebt) && Allowed(s, Make(p, k, o, holder)) && Limited(Perform(s, Make(p, k, o, holder)))
    ensures AllExact(Perform(s, Make(p, k, o, holder)), NoDebt)
  {
    var t := Perform(s, Make(p, k, o, holder));
    forall x | x in t.heap
      ensures CountersExact(t, NoDebt, x)
    {
      assert CountersExact(s, NoDebt, x);
      assert InLimits(t.pointers, x);
      MakeExact(s, p, k, o, holder, x);
    }
  }

  /** A frame is not concerned by pointers that may be made. */
  lemma FrameUnconcerned(s: State, t: State, debt: Debt, f: Frame, k: Kind, o: ObjId)
    requires FrameSound(s, debt, f) && t.heap.Keys == s.heap.Keys
    requires f.obj == o ==> f.Invalidate? && f.lost != k
    requires forall l :: Expected(t, debt, l, f.obj) == Expected(s, debt, l, f.obj) + Bit(l == k && f.obj == o)
    ensures FrameSound(t, debt, f)
  {}

  lemma MakeFrames(s: State, p: PtrId, k: Kind, o: ObjId, holder: Holder, t: State)
    requires FramesSound(s, NoDebt) && p !in s.pointers && MayPoint(s, k, o)
    requires t.pointers == s.pointers[p := Pointer(k, o, holder)] && t.stack == s.stack && t.heap.Keys == s.heap.Keys
    ensures FramesSound(t, NoDebt)
  {
    forall i | 0 <= i < |s.stack|
      ensures FrameSound(t, NoDebt, s.stack[i])
    {
      var f := s.stack[i];
      forall l
        ensures Expected(t, NoDebt, l, f.obj) == Expected(s, NoDebt, l, f.obj) + Bit(l == k && f.obj == o)
      {
        CountAdded(s.pointers, p, Pointer(k, o, holder), l, f.obj);
      }
      assert FrameSound(s, NoDebt, f);
      FrameUnconcerned(s, t, NoDebt, f, k, o);
    }
  }

  lemma AddThenDecrement(c: Counters, k: Kind)
    requires c.objData < WORD && c.refData < WORD
    ensures Decrement(AddRef(c, k), k) == c
  {}

  lemma AssignSelf(s: State, p: PtrId)
    requires Sound(s, NoDebt) && p in s.pointers && Allowed(s, Assign(p, s.pointers[p].target))
    ensures Perform(s, Assign(p, s.pointers[p].target)) == s
  {
    var k, o := s.pointers[p].kind, s.pointers[p].target;
    assert s.pointers[p := s.pointers[p].(target := o)] == s.pointers;
    assert CountersExact(s, NoDebt, o);
    ShowsInWord(s.heap[o], Count(s.pointers, Owner, o), Count(s.pointers, MultiOwner, o), Count(s.pointers, Ref, o), Invalidating(s.stack, o));
    AddThenDecrement(s.heap[o], k);
    CountRemoved(s.pointers, p, k, o);
    StillHeld(s, k, o);
    var u := s.(heap := s.heap[o := AddRef(s.heap[o], k)]);
    assert u.heap[o := s.heap[o]] == s.heap;
  }

  lemma ShowsInWord(c: Counters, owners: nat, multi: nat, refs: nat, busy: bool)
    requires Shows(c, owners, multi, refs, busy)
    ensures c.objData < WORD && c.refData < WORD
  {
    Unpack(owners, multi, busy, IsInvalid(c.objData));
  }

  lemma StillHeld(s: State, k: Kind, o: ObjId)
    requires o in s.heap && CountersExact(s, NoDebt, o) && Count(s.pointers, k, o) > 0
    ensures ReleaseComplete(s, k, o) == s
  {
    ShowsTests(s.heap[o], Count(s.pointers, Owner, o), Count(s.pointers, MultiOwner, o), Count(s.pointers, Ref, o),
               Invalidating(s.stack, o));
  }

  /** While a pointer is re-targeted, the new target counts it already and the old one still. */
  lemma AssignedCounts(s: State, p: PtrId, o: ObjId, l: Kind, x: ObjId)
    requires p in s.pointers && s.pointers[p].target != o
    ensures var was := s.pointers[p];
      var m, gone := s.pointers[p := was.(target := o)], s.pointers - {p};
      && Count(m, l, x) == Count(gone, l, x) + Bit(l == was.kind && x == o)
      && Count(s.pointers, l, x) == Count(gone, l, x) + Bit(l == was.kind && x == was.target)
  {
    var was, gone := s.pointers[p], s.pointers - {p};
    CountRemoved(s.pointers, p, l, x);
    CountAdded(gone, p, was.(target := o), l, x);
    assert s.pointers[p := was.(target := o)] == gone[p := was.(target := o)];
  }

  lemma ReleaseKeepsHeap(s: State, k: Kind, o: ObjId)
    ensures Release(s, k, o).heap.Keys == s.heap.Keys && Release(s, k, o).pointers == s.pointers
  {}

  lemma AssignSound(s: State, p: PtrId, o: ObjId)
    requires Sound(s, NoDebt) && Limited(s) && Allowed(s, Assign(p, o)) && Limited(Perform(s, Assign(p, o)))
    ensures Sound(Perform(s, Assign(p, o)), NoDebt)
  {
    var was := s.pointers[p];
    if was.target == o {
      AssignSelf(s, p);
    } else {
      AssignLimits(s, p, o);
      RetargetSound(s, p, o);
      AssignedCounts(s, p, o, Ref, was.target);
      ReleaseSound(Acquire(Retargeted(s, p, o), was.kind, o), was.kind, was.target);
    }
  }

  ghost function Retargeted(s: State, p: PtrId, o: ObjId): State
    requires p in s.pointers
  {
    s.(pointers := s.pointers[p := s.pointers[p].(target := o)])
  }

  lemma AssignLimits(s: State, p: PtrId, o: ObjId)
    requires Allowed(s, Assign(p, o)) && Limited(Perform(s, Assign(p, o)))
    ensures Limited(Retargeted(s, p, o))
  {
    var t := Acquire(Retargeted(s, p, o), s.pointers[p].kind, o);
    ReleaseKeepsHeap(t, s.pointers[p].kind, s.pointers[p].target);
    assert Perform(s, Assign(p, o)).heap.Keys == s.heap.Keys;
    assert Perform(s, Assign(p, o)).pointers == Retargeted(s, p, o).pointers;
  }

  lemma RetargetSound(s: State, p: PtrId, o: ObjId)
    requires Sound(s, NoDebt) && Limited(s) && p in s.pointers && o in s.heap && Limited(Retargeted(s, p, o))
    requires s.pointers[p].target != o && MayPoint(s, s.pointers[p].kind, o)
    ensures Sound(Acquire(Retargeted(s, p, o), s.pointers[p].kind, o), Debt(s.pointers[p].kind, s.pointers[p].target))
  {
    var debt := Debt(s.pointers[p].kind, s.pointers[p].target);
    var t := Acquire(Retargeted(s, p, o), s.pointers[p].kind, o);
    assert TargetsLive(t) && HoldersLive(t) by { NewTargets(s, p, o, t); }
    assert FramesSound(t, debt) by {
      PointerGone(s, p);
      RetargetFrames(s, p, o, t);
    }
    assert AllExact(t, debt) by {
      PointerGone(s, p);
      RetargetAllExact(s, p, o);
    }
  }

  lemma RetargetFrames(s: State, p: PtrId, o: ObjId, t: State)
    requires p in s.pointers && s.pointers[p].target != o && MayPoint(s, s.pointers[p].kind, o)
    requires FramesSound(s.(pointers := s.pointers - {p}), Debt(s.pointers[p].kind, s.pointers[p].target))
    requires t.pointers == Retargeted(s, p, o).pointers && t.stack == s.stack && t.heap.Keys == s.heap.Keys
    ensures FramesSound(t, Debt(s.pointers[p].kind, s.pointers[p].target))
  {
    var was := s.pointers[p];
    var gone, debt := s.(pointers := s.pointers - {p}), Debt(was.kind, was.target);
    forall i | 0 <= i < |s.stack|
      ensures FrameSound(t, debt, s.stack[i])
    {
      var f := s.stack[i];
      forall l
        ensures Expected(t, debt, l, f.obj) == Expected(gone, debt, l, f.obj) + Bit(l == was.kind && f.obj == o)
      {
        AssignedCounts(s, p, o, l, f.obj);
      }
      assert FrameSound(gone, debt, gone.stack[i]);
      FrameUnconcerned(gone, t, debt, f, was.kind, o);
    }
  }

  lemma RetargetAllExact(s: State, p: PtrId, o: ObjId)
    requires p in s.pointers && s.pointers[p].target != o && o in s.heap && Limited(s) && Limited(Retargeted(s, p, o))
    requires AllExact(s.(pointers := s.pointers - {p}), Debt(s.pointers[p].kind, s.pointers[p].target))
    ensures AllExact(Acquire(Retargeted(s, p, o), s.pointers[p].kind, o), Debt(s.pointers[p].kind, s.pointers[p].target))
  {
    forall x | x in s.heap
      ensures CountersExact(Acquire(Retargeted(s, p, o), s.pointers[p].kind, o), Debt(s.pointers[p].kind, s.pointers[p].target), x)
    {
      assert InLimits(s.pointers, x) && InLimits(Retargeted(s, p, o).pointers, x);
      RetargetExact(s, p, o, x);
    }
  }

  lemma NewTargets(s: State, p: PtrId, o: ObjId, t: State)
    requires TargetsLive(s) && HoldersLive(s) && p in s.pointers && o in s.heap
    requires t.pointers == s.pointers[p := s.pointers[p].(target := o)] && t.heap.Keys == s.heap.Keys
    ensures TargetsLive(t) && HoldersLive(t)
  {}

  lemma RetargetExact(s: State, p: PtrId, o: ObjId, x: ObjId)
    requires p in s.pointers && s.pointers[p].target != o && o in s.heap && x in s.heap
    requires CountersExact(s.(pointers := s.pointers - {p}), Debt(s.pointers[p].kind, s.pointers[p].target), x)
    requires InLimits(s.pointers, x) && InLimits(s.pointers[p := s.pointers[p].(target := o)], x)
    ensures CountersExact(Acquire(Retargeted(s, p, o), s.pointers[p].kind, o), Debt(s.pointers[p].kind, s.pointers[p].target), x)
  {
    var was := s.pointers[p];
    var gone, debt := s.(pointers := s.pointers - {p}), Debt(was.kind, was.target);
    var m := s.(pointers := s.pointers[p := was.(target := o)]);
    forall l
      ensures Count(m.pointers, l, x) == Count(gone.pointers, l, x) + Bit(l == was.kind && x == o)
      ensures Count(s.pointers, l, x) == Count(gone.pointers, l, x) + Bit(l == was.kind && x == was.target)
    {
      AssignedCounts(s, p, o, l, x);
    }
    RetargetInRange(s, gone, m, debt, was.kind, o, x);
    AcquireExact(gone, debt, m, was.kind, o, x);
  }

  lemma RetargetInRange(s: State, gone: State, m: State, debt: Debt, k: Kind, o: ObjId, x: ObjId)
    requires debt.Debt? && debt.k == k && debt.o != o && InLimits(s.pointers, x) && InLimits(m.pointers, x)
    requires forall l :: Count(m.pointers, l, x) == Count(gone.pointers, l, x) + Bit(l == k && x == o)
    requires forall l :: Count(s.pointers, l, x) == Count(gone.pointers, l, x) + Bit(l == k && x == debt.o)
    ensures InRange(Expected(m, debt, Owner, x), Expected(m, debt, MultiOwner, x)) && Expected(m, debt, Ref, x) + 1 < WORD
  {
    forall l
      ensures Expected(m, debt, l, x) == if x == o then Count(m.pointers, l, x) else Count(s.pointers, l, x)
    {}
  }

  // ---------------------------------------------------------------- all runs

  lemma NextSound(s: State, t: State)
    requires Sound(s, NoDebt) && Limited(s) && Limited(t) && Next(s, t)
    ensures Sound(t, NoDebt)
  {
    if Cascade(s, t) {
      var o := s.stack[|s.stack| - 1].obj;
      if exists p :: Holds(s, o, p) {
        var p :| Holds(s, o, p) && t == DestroyMember(s, p);
        DestroyMemberSound(s, p);
      } else {
        FinishFrameSound(s);
      }
    } else {
      var a :| Allowed(s, a) && t == Perform(s, a);
      match a
      case New(o) => NewSound(s, o);
      case Make(p, k, o, holder) => MakeSound(s, p, k, o, holder);
      case Assign(p, o) => AssignSound(s, p, o);
      case Drop(p) => DestroyMemberSound(s, p);
    }
  }

  /** A run of the program, with the number of pointers within the limits throughout. */
  ghost predicate IsRun(run: seq<State>) {
    && run != [] && run[0] == INITIAL
    && (forall i :: 0 <= i < |run| ==> Limited(run[i]))
    && (forall i {:trigger StepAt(run, i)} :: 0 <= i < |run| - 1 ==> StepAt(run, i))
  }

  ghost predicate StepAt(run: seq<State>, i: int)
    requires 0 <= i < |run| - 1
  {
    Next(run[i], run[i + 1])
  }

  /** In every state of every run: no assertion of the original fires, no freed object is
      touched, every pointer leads to a live object, no object is destroyed while pointed to or
      twice, and the packed counters equal the numbers of pointers of each kind. */
  lemma {:induction false} RunsAreSound(run: seq<State>, i: nat)
    requires IsRun(run) && i < |run|
    ensures Sound(run[i], NoDebt)
  {
    if i == 0 {
      assert INITIAL.stack == [];
    } else {
      RunsAreSound(run, i - 1);
      assert StepAt(run, i - 1);
      NextSound(run[i - 1], run[i]);
    }
  }

  // ---------------------------------------------------------------- cascades end

  ghost function Weight(stack: seq<Frame>): nat {
    if stack == [] then 0 else Weight(Rest(stack)) + if Top(stack).Invalidate? then 2 else 1
  }

  ghost function Work(s: State): nat {
    3 * |s.pointers| + Weight(s.stack)
  }

  lemma PushWeight(stack: seq<Frame>, f: Frame)
    ensures Weight(stack + [f]) == Weight(stack) + if f.Invalidate? then 2 else 1
  {
    assert Rest(stack + [f]) == stack;
  }

  lemma ReleaseWork(s: State, k: Kind, o: ObjId)
    ensures Work(Release(s, k, o)) <= Work(s) + if k == Ref then 1 else 2
  {
    PushWeight(s.stack, Delete(o));
    PushWeight(s.stack, Invalidate(o, k));
  }

  lemma DestroyMemberWork(s: State, p: PtrId)
    requires p in s.pointers
    ensures Work(DestroyMember(s, p)) < Work(s)
  {
    assert s.pointers.Keys == (s.pointers - {p}).Keys + {p};
    assert |s.pointers| == |s.pointers - {p}| + 1;
    ReleaseWork(s.(pointers := s.pointers - {p}), s.pointers[p].kind, s.pointers[p].target);
  }

  lemma FinishFrameWork(s: State)
    requires s.stack != []
    ensures Work(FinishFrame(s)) < Work(s)
  {
    var popped := s.(stack := Rest(s.stack));
    assert Work(popped) < Work(s);
    if Top(s.stack).Invalidate? && Top(s.stack).obj in s.heap {
      assert Work(popped) + 2 == Work(s) && Work(Invalidated(s)) == Work(popped);
      ReleaseWork(Invalidated(s), Ref, Top(s.stack).obj);
    } else {
      assert Work(FinishFrame(s)) == Work(popped);
    }
  }

  /** Every step of a destruction reduces the remaining work, so each release ends. */
  lemma CascadeEnds(s: State, t: State)
    requires Cascade(s, t)
    ensures Work(t) < Work(s)
  {
    var o := s.stack[|s.stack| - 1].obj;
    if exists p :: Holds(s, o, p) {
      var p :| Holds(s, o, p) && t == DestroyMember(s, p);
      DestroyMemberWork(s, p);
    } else {
      FinishFrameWork(s);
    }
  }

  // ---------------------------------------------------------------- invalid for good

  ghost predicate Dying(s: State, o: ObjId) {
    exists i :: 0 <= i < |s.stack| && s.stack[i] == Delete(o)
  }

  /** `o` lost an owner for good: it is deleted, being deleted, or invalid. */
  ghost predicate Abandoned(s: State, o: ObjId) {
    o in s.used && (o !in s.heap || Dying(s, o) || IsInvalid(s.heap[o].objData))
  }

  lemma PushKeepsDying(s: State, t: State, o: ObjId)
    requires Dying(s, o) && s.stack <= t.stack
    ensures Dying(t, o)
  {
    var i :| 0 <= i < |s.stack| && s.stack[i] == Delete(o);
    assert t.stack[i] == Delete(o);
  }

  lemma DecrementKeepsInvalid(s: State, k: Kind, x: ObjId)
    requires x in s.heap && CountersExact(s, Debt(k, x), x)
    ensures IsInvalid(Decrement(s.heap[x], k).objData) == IsInvalid(s.heap[x].objData)
    ensures CountersExact(s.(heap := s.heap[x := Decrement(s.heap[x], k)]), NoDebt, x)
  {
    ShowsDecrement(s.heap[x], k, Count(s.pointers, Owner, x), Count(s.pointers, MultiOwner, x),
                   Count(s.pointers, Ref, x), Invalidating(s.stack, x));
  }

  lemma InvalidationSetsInvalid(s: State, o: ObjId)
    requires o in s.heap && CountersExact(s, NoDebt, o) && !Invalidating(s.stack, o) && InLimits(s.pointers, o)
    ensures IsInvalid(StartInvalidation(s.heap[o]).objData)
  {
    ShowsInvalidation(s.heap[o], Count(s.pointers, Owner, o), Count(s.pointers, MultiOwner, o), Count(s.pointers, Ref, o));
  }

  lemma BusyMeans(s: State, o: ObjId)
    requires o in s.heap && CountersExact(s, NoDebt, o)
    ensures IsBusy(s.heap[o].objData) <==> Invalidating(s.stack, o)
    ensures IsBusy(s.heap[o].objData) ==> IsInvalid(s.heap[o].objData)
    ensures forall k :: k != Ref ==> Masked(s.heap[o].objData, k) == Count(s.pointers, k, o)
  {
    ShowsTests(s.heap[o], Count(s.pointers, Owner, o), Count(s.pointers, MultiOwner, o), Count(s.pointers, Ref, o),
               Invalidating(s.stack, o));
  }

  /** A release abandons nothing it should not and un-abandons nothing; after the last owner of
      a kind is gone, the object is abandoned. */
  lemma ReleaseAbandons(s: State, k: Kind, x: ObjId, o: ObjId)
    requires x in s.heap && CountersExact(s, Debt(k, x), x) && InLimits(s.pointers, x) && o in s.used
    requires Abandoned(s, o) || (o == x && k != Ref && Count(s.pointers, k, x) == 0)
    requires !Release(s, k, x).failed
    ensures Abandoned(Release(s, k, x), o)
  {
    var d := s.(heap := s.heap[x := Decrement(s.heap[x], k)]);
    DecrementKeepsInvalid(s, k, x);
    BusyMeans(d, x);
    var t := Release(s, k, x);
    if Dying(s, o) {
      PushKeepsDying(s, t, o);
    } else if o == x {
      if !IsBusy(d.heap[x].objData) { InvalidationSetsInvalid(d, x); }
      if t == StartDelete(d, x) { assert t.stack[|s.stack|] == Delete(x); }
    }
  }

  lemma DestroyMemberAbandons(s: State, p: PtrId, o: ObjId)
    requires Sound(s, NoDebt) && Limited(s) && p in s.pointers && Sound(DestroyMember(s, p), NoDebt) && o in s.used
    requires Abandoned(s, o) || (s.pointers[p].target == o && s.pointers[p].kind != Ref
                                 && Count(DestroyMember(s, p).pointers, s.pointers[p].kind, o) == 0)
    ensures Abandoned(DestroyMember(s, p), o)
  {
    PointerGone(s, p);
    var k, x := s.pointers[p].kind, s.pointers[p].target;
    var g := s.(pointers := s.pointers - {p});
    ReleaseKeepsHeap(g, k, x);
    assert InLimits(s.pointers, x);
    forall l { CountRemoved(s.pointers, p, l, x); }
    assert CountersExact(g, Debt(k, x), x);
    ReleaseAbandons(g, k, x, o);
  }

  lemma PopKeepsDying(s: State, t: State, o: ObjId)
    requires s.stack != [] && t.stack == Rest(s.stack) && Dying(s, o) && Top(s.stack) != Delete(o)
    ensures Dying(t, o)
  {
    var i :| 0 <= i < |s.stack| && s.stack[i] == Delete(o);
    assert t.stack[i] == Delete(o);
  }

  lemma InvalidatedAbandons(s: State, x: ObjId, o: ObjId)
    requires s.stack != [] && Top(s.stack).Invalidate? && Top(s.stack).obj == x && x in s.heap
    requires CountersExact(s, NoDebt, x) && Abandoned(s, o)
    ensures Abandoned(Invalidated(s), o)
  {
    if Dying(s, o) {
      PopKeepsDying(s, Invalidated(s), o);
    } else if x == o {
      assert s.stack[|s.stack| - 1].Invalidate?;
      ShowsInvalidated(s.heap[o], Count(s.pointers, Owner, o), Count(s.pointers, MultiOwner, o), Count(s.pointers, Ref, o));
    }
  }

  lemma FinishFrameAbandons(s: State, o: ObjId)
    requires Sound(s, NoDebt) && Limited(s) && s.stack != [] && Sound(FinishFrame(s), NoDebt) && Abandoned(s, o)
    ensures Abandoned(FinishFrame(s), o)
  {
    assert FrameSound(s, NoDebt, s.stack[|s.stack| - 1]);
    var x := Top(s.stack).obj;
    if Top(s.stack).Delete? {
      if x != o && Dying(s, o) { PopKeepsDying(s, FinishFrame(s), o); }
    } else {
      PopInvalidateSound(s, x, Top(s.stack).lost);
      InvalidatedAbandons(s, x, o);
      BusyMeans(s, x);
      assert CountersExact(Invalidated(s), Debt(Ref, x), x);
      assert InLimits(s.pointers, x);
      ReleaseAbandons(Invalidated(s), Ref, x, o);
    }
  }

  lemma AcquireAbandons(s: State, m: State, debt: Debt, k: Kind, x: ObjId, o: ObjId)
    requires x in s.heap && CountersExact(s, debt, x) && m.heap == s.heap && m.stack == s.stack && m.used == s.used
    requires forall l :: Count(m.pointers, l, x) == Count(s.pointers, l, x) + Bit(l == k)
    requires InRange(Expected(m, debt, Owner, x), Expected(m, debt, MultiOwner, x)) && Expected(m, debt, Ref, x) + 1 < WORD
    requires Abandoned(s, o)
    ensures Abandoned(Acquire(m, k, x), o)
  {
    if o == x {
      ShowsIncrement(s.heap[o], k, Expected(s, debt, Owner, o), Expected(s, debt, MultiOwner, o),
                     Expected(s, debt, Ref, o), Invalidating(s.stack, o));
    }
  }

  lemma MakeAbandons(s: State, p: PtrId, k: Kind, x: ObjId, holder: Holder, o: ObjId)
    requires Sound(s, NoDebt) && Allowed(s, Make(p, k, x, holder)) && Limited(Perform(s, Make(p, k, x, holder)))
    requires Abandoned(s, o)
    ensures Abandoned(Perform(s, Make(p, k, x, holder)), o)
  {
    var m := s.(pointers := s.pointers[p := Pointer(k, x, holder)]);
    forall l
      ensures Count(m.pointers, l, x) == Count(s.pointers, l, x) + Bit(l == k)
    {
      CountAdded(s.pointers, p, Pointer(k, x, holder), l, x);
    }
    assert CountersExact(s, NoDebt, x);
    assert InLimits(Perform(s, Make(p, k, x, holder)).pointers, x);
    AcquireAbandons(s, m, NoDebt, k, x, o);
  }

  lemma RetargetAbandons(s: State, p: PtrId, x: ObjId, o: ObjId)
    requires Sound(s, NoDebt) && p in s.pointers && x in s.heap
    requires InLimits(s.pointers, x) && InLimits(Retargeted(s, p, x).pointers, x)
    requires s.pointers[p].target != x && Abandoned(s, o)
    ensures Abandoned(Acquire(Retargeted(s, p, x), s.pointers[p].kind, x), o)
  {
    var was, m := s.pointers[p], Retargeted(s, p, x);
    var gone, debt := s.(pointers := s.pointers - {p}), Debt(was.kind, was.target);
    PointerGone(s, p);
    assert CountersExact(gone, debt, x);
    forall l
      ensures Count(m.pointers, l, x) == Count(gone.pointers, l, x) + Bit(l == was.kind)
      ensures Count(s.pointers, l, x) == Count(gone.pointers, l, x)
    {
      AssignedCounts(s, p, x, l, x);
    }
    AcquireAbandons(gone, m, debt, was.kind, x, o);
  }

  lemma AssignAbandons(s: State, p: PtrId, x: ObjId, o: ObjId)
    requires Sound(s, NoDebt) && Limited(s) && Allowed(s, Assign(p, x)) && Limited(Perform(s, Assign(p, x)))
    requires Sound(Perform(s, Assign(p, x)), NoDebt) && o in s.used
    requires Abandoned(s, o) || (s.pointers[p].target == o && s.pointers[p].kind != Ref && x != o
                                 && Count(Perform(s, Assign(p, x)).pointers, s.pointers[p].kind, o) == 0)
    ensures Abandoned(Perform(s, Assign(p, x)), o)
  {
    var was := s.pointers[p];
    if was.target == x {
      AssignSelf(s, p);
    } else {
      var t := Acquire(Retargeted(s, p, x), was.kind, x);
      AssignLimits(s, p, x);
      RetargetSound(s, p, x);
      assert InLimits(s.pointers, x) && InLimits(Retargeted(s, p, x).pointers, x);
      if Abandoned(s, o) { RetargetAbandons(s, p, x, o); }
      assert CountersExact(t, Debt(was.kind, was.target), was.target);
      ReleaseKeepsHeap(t, was.kind, was.target);
      assert InLimits(Retargeted(s, p, x).pointers, was.target);
      ReleaseAbandons(t, was.kind, was.target, o);
    }
  }

  /** The step takes the last owner of kind `k` away from `o`. */
  ghost predicate LosesLastOwner(s: State, t: State, k: Kind, o: ObjId) {
    k != Ref && Count(s.pointers, k, o) > 0 && Count(t.pointers, k, o) == 0
  }

  lemma NextAbandons(s: State, t: State, k: Kind, o: ObjId)
    requires Sound(s, NoDebt) && Sound(t, NoDebt) && Limited(s) && Limited(t) && Next(s, t)
    requires o in s.used && (Abandoned(s, o) || LosesLastOwner(s, t, k, o))
    ensures Abandoned(t, o)
  {
    if Cascade(s, t) {
      var x := s.stack[|s.stack| - 1].obj;
      if exists p :: Holds(s, x, p) {
        var p :| Holds(s, x, p) && t == DestroyMember(s, p);
        DestroyedLast(s, p, k, o);
        DestroyMemberAbandons(s, p, o);
      } else {
        FinishFrameKeepsPointers(s);
        FinishFrameAbandons(s, o);
      }
    } else {
      var a :| Allowed(s, a) && t == Perform(s, a);
      match a
      case New(x) =>
      case Make(p, l, x, holder) =>
        CountAdded(s.pointers, p, Pointer(l, x, holder), k, o);
        MakeAbandons(s, p, l, x, holder, o);
      case Assign(p, x) =>
        ReassignedLast(s, p, x, k, o);
        AssignAbandons(s, p, x, o);
      case Drop(p) =>
        DestroyedLast(s, p, k, o);
        DestroyMemberAbandons(s, p, o);
    }
  }

  lemma FinishFrameKeepsPointers(s: State)
    requires s.stack != []
    ensures FinishFrame(s).pointers == s.pointers
  {}

  lemma DestroyedLast(s: State, p: PtrId, k: Kind, o: ObjId)
    requires p in s.pointers
    ensures DestroyMember(s, p).pointers == s.pointers - {p}
    ensures LosesLastOwner(s, DestroyMember(s, p), k, o) ==> s.pointers[p].kind == k && s.pointers[p].target == o
  {
    ReleaseKeepsHeap(s.(pointers := s.pointers - {p}), s.pointers[p].kind, s.pointers[p].target);
    CountRemoved(s.pointers, p, k, o);
  }

  lemma ReassignedLast(s: State, p: PtrId, x: ObjId, k: Kind, o: ObjId)
    requires Allowed(s, Assign(p, x))
    ensures LosesLastOwner(s, Perform(s, Assign(p, x)), k, o) ==>
      s.pointers[p].kind == k && s.pointers[p].target == o && x != o
  {
    var was := s.pointers[p];
    var m := s.(pointers := s.pointers[p := was.(target := x)]);
    ReleaseKeepsHeap(Acquire(m, was.kind, x), was.kind, was.target);
    if was.target == x {
      assert m.pointers == s.pointers;
    } else {
      AssignedCounts(s, p, x, k, o);
    }
  }

  lemma OwnedIsUsed(s: State, k: Kind, o: ObjId)
    requires Sound(s, NoDebt) && Count(s.pointers, k, o) > 0
    ensures o in s.used
  {
    var p :| p in Pointing(s.pointers, k, o);
  }

  lemma StepAbandons(run: seq<State>, j: nat, k: Kind, o: ObjId)
    requires IsRun(run) && j + 1 < |run| && (Abandoned(run[j], o) || LosesLastOwner(run[j], run[j + 1], k, o))
    ensures Abandoned(run[j + 1], o)
  {
    assert Sound(run[j], NoDebt) by { RunsAreSound(run, j); }
    assert Sound(run[j + 1], NoDebt) by { RunsAreSound(run, j + 1); }
    assert Next(run[j], run[j + 1]) by { assert StepAt(run, j); }
    if !Abandoned(run[j], o) { OwnedIsUsed(run[j], k, o); }
    NextAbandons(run[j], run[j + 1], k, o);
  }

  lemma {:induction false} AbandonedForever(run: seq<State>, i: nat, j: nat, k: Kind, o: ObjId)
    requires IsRun(run) && i < j < |run| && LosesLastOwner(run[i], run[i + 1], k, o)
    ensures Abandoned(run[j], o)
    decreases j
  {
    if i < j - 1 { AbandonedForever(run, i, j - 1, k, o); }
    StepAbandons(run, j - 1, k, o);
  }

  /** Invalidation is permanent: an object that outlives the loss of its last TObj (or last
      TMObj) is invalid in every later state in which no destruction is in progress. */
  lemma InvalidForever(run: seq<State>, i: nat, j: nat, k: Kind, o: ObjId)
    requires IsRun(run) && i < j < |run| && LosesLastOwner(run[i], run[i + 1], k, o)
    requires run[j].stack == [] && o in run[j].heap
    ensures IsInvalid(run[j].heap[o].objData)
  {
    AbandonedForever(run, i, j, k, o);
  }
}
