/** Intrusive reference counting with ownership: TPtr, TObj and TMObj pointers.

    Two owner counters and two flags share one 32-bit word.  Releasing a pointer may start the
    invalidation or the deletion of an object, which releases the pointers it holds, and so on;
    this re-entrancy is modelled by an explicit stack of unfinished destructions.  Members of an
    object are destroyed in any order, so every order is covered. */
module SafePtr {

  type ObjId = nat
  type PtrId = nat

  datatype Kind = Ref | Owner | MultiOwner

  /** `objData`: bits 0-19 TObj count, 20-29 TMObj count, 30 "being invalidated", 31 "invalid". */
  datatype Counters = Counters(objData: nat, refData: nat)

  datatype Holder = Outside | Member(obj: ObjId)

  datatype Pointer = Pointer(kind: Kind, target: ObjId, holder: Holder)

  /** An object whose contents are being destroyed: for good, or to be invalidated after it lost
      its last owner of the given kind. */
  datatype Frame = Delete(obj: ObjId) | Invalidate(obj: ObjId, lost: Kind)

  /** `used` are all object ids handed out so far; ids are not reused.  `failed` records that an
      assertion of the original fired or that freed memory was touched. */
  datatype State = State(
    heap: map<ObjId, Counters>,
    pointers: map<PtrId, Pointer>,
    stack: seq<Frame>,
    used: set<ObjId>,
    failed: bool)

  const INITIAL := State(map[], map[], [], {}, false)

  const WORD: nat := 0x1_0000_0000
  const INVALID: nat := 0x8000_0000
  const BUSY: nat := 0x4000_0000
  const UNIT_M: nat := 0x10_0000

  // ---------------------------------------------------------------- the packed word

  function Owners(d: nat): nat { d % UNIT_M }
  function MultiOwners(d: nat): nat { d / UNIT_M % 0x400 }
  function AllOwners(d: nat): nat { d % BUSY }
  predicate IsBusy(d: nat) { d / BUSY % 2 == 1 }
  predicate IsInvalid(d: nat) { d / INVALID % 2 == 1 }

  function Masked(d: nat, k: Kind): nat
    requires k != Ref
  {
    if k == Owner then Owners(d) else MultiOwners(d)
  }

  function Unit(k: Kind): nat
    requires k != Ref
  {
    if k == Owner then 1 else UNIT_M
  }

  // ---------------------------------------------------------------- counter operations

  function AddRef(c: Counters, k: Kind): Counters {
    if k == Ref then c.(refData := (c.refData + 1) % WORD)
    else c.(objData := (c.objData + Unit(k)) % WORD)
  }

  function Decrement(c: Counters, k: Kind): Counters {
    if k == Ref then c.(refData := (c.refData - 1) % WORD)
    else c.(objData := (c.objData - Unit(k)) % WORD)
  }

  /** Sets the two flags and takes the temporary reference. */
  function StartInvalidation(c: Counters): Counters {
    Counters(SetFlag(SetFlag(c.objData, BUSY), INVALID), (c.refData + 1) % WORD)
  }

  function SetFlag(d: nat, flag: nat): nat
    requires flag > 0
  {
    if d / flag % 2 == 1 then d else d + flag
  }

  function ClearFlag(d: nat, flag: nat): nat
    requires flag > 0
  {
    if d / flag % 2 == 1 then d - flag else d
  }

  // ---------------------------------------------------------------- steps

  function Fail(s: State): State { s.(failed := true) }

  /** `delete this`, with the assertion that the object is not being invalidated. */
  function StartDelete(s: State, o: ObjId): State
    requires o in s.heap
  {
    if IsBusy(s.heap[o].objData) then Fail(s) else s.(stack := s.stack + [Delete(o)])
  }

  /** What follows a decrement of the counter of kind `k`: ReleaseRefComplete for a TPtr,
      ReleaseObjComplete once the counter of an owner kind is zero. */
  function ReleaseComplete(s: State, k: Kind, o: ObjId): State
    requires o in s.heap
  {
    var c := s.heap[o];
    if k == Ref then
      if c.refData == 0 && AllOwners(c.objData) == 0 then StartDelete(s, o) else s
    else if Masked(c.objData, k) != 0 then s
    else if AllOwners(c.objData) == 0 && c.refData == 0 then StartDelete(s, o)
    else if IsBusy(c.objData) then s
    else s.(heap := s.heap[o := StartInvalidation(c)], stack := s.stack + [Invalidate(o, k)])
  }

  /** Releases one pointer of kind `k` to `o`; the pointer itself is gone already. */
  function Release(s: State, k: Kind, o: ObjId): State {
    if o !in s.heap then Fail(s)
    else ReleaseComplete(s.(heap := s.heap[o := Decrement(s.heap[o], k)]), k, o)
  }

  function Acquire(s: State, k: Kind, o: ObjId): State {
    if o !in s.heap then Fail(s) else s.(heap := s.heap[o := AddRef(s.heap[o], k)])
  }

  /** One more member of the object on top of the stack is destroyed. */
  function DestroyMember(s: State, p: PtrId): State
    requires p in s.pointers
  {
    Release(s.(pointers := s.pointers - {p}), s.pointers[p].kind, s.pointers[p].target)
  }

  /** The object on top of the stack holds nothing any more. */
  function FinishFrame(s: State): State
    requires s.stack != []
  {
    var frame := s.stack[|s.stack| - 1];
    var s' := s.(stack := s.stack[..|s.stack| - 1]);
    if frame.obj !in s.heap then Fail(s')
    else match frame
      case Delete(o) => s'.(heap := s'.heap - {o})
      case Invalidate(o, k) =>
        var c := s'.heap[o];
        if k == Ref || Masked(c.objData, k) != 0 then Fail(s')
        else Release(s'.(heap := s'.heap[o := c.(objData := ClearFlag(c.objData, BUSY))]), Ref, o)
  }

  ghost predicate Holds(s: State, o: ObjId, p: PtrId) {
    p in s.pointers && s.pointers[p].holder == Member(o)
  }

  /** What a program does. */
  datatype Action =
    | New(o: ObjId)
    | Make(p: PtrId, k: Kind, o: ObjId, holder: Holder)
    | Assign(p: PtrId, o: ObjId)
    | Drop(p: PtrId)

  /** An object being deleted is no longer pointed to, nor one being invalidated by owners of the
      kind it lost. */
  predicate MayPoint(s: State, k: Kind, o: ObjId) {
    o in s.heap && forall i :: 0 <= i < |s.stack| && s.stack[i].obj == o ==> s.stack[i].Invalidate? && s.stack[i].lost != k
  }

  /** Actions are also allowed while destructions are in progress: destructors have code of their
      own. */
  predicate Allowed(s: State, a: Action) {
    match a
    case New(o) => o !in s.used
    case Make(p, k, o, holder) =>
      p !in s.pointers && MayPoint(s, k, o) && (holder.Outside? || holder.obj in s.heap)
    case Assign(p, o) => p in s.pointers && MayPoint(s, s.pointers[p].kind, o)
    case Drop(p) => p in s.pointers
  }

  function Perform(s: State, a: Action): State
    requires Allowed(s, a)
  {
    match a
    case New(o) => s.(heap := s.heap[o := Counters(0, 0)], used := s.used + {o})
    case Make(p, k, o, holder) =>
      Acquire(s.(pointers := s.pointers[p := Pointer(k, o, holder)]), k, o)
    case Assign(p, o) =>
      var was := s.pointers[p];
      Release(Acquire(s.(pointers := s.pointers[p := was.(target := o)]), was.kind, o), was.kind, was.target)
    case Drop(p) => DestroyMember(s, p)
  }

  ghost predicate Cascade(s: State, t: State) {
    s.stack != [] &&
    var o := s.stack[|s.stack| - 1].obj;
    if exists p :: Holds(s, o, p) then exists p :: Holds(s, o, p) && t == DestroyMember(s, p)
    else t == FinishFrame(s)
  }

  ghost predicate Next(s: State, t: State) {
    Cascade(s, t) || exists a :: Allowed(s, a) && t == Perform(s, a)
  }
}
