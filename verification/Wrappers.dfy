/** A value that may be absent, and a value or a failure. */
module Wrappers {
  datatype Option<T> = None | Some(value: T)

  datatype Result<T, E> = Ok(value: T) | Err(error: E) {
    predicate IsFailure() { Err? }
    function PropagateFailure<U>(): Result<U, E>
      requires Err?
    {
      Err(error)
    }
    function Extract(): T
      requires Ok?
    {
      value
    }
  }

  /** The position at which `x` first occurs; the length if it does not. */
  ghost function FirstAt<T>(xs: seq<T>, x: T): (i: nat)
    ensures i <= |xs| && (i < |xs| ==> xs[i] == x) && x !in xs[..i]
  {
    if xs == [] || xs[0] == x then 0
    else
      assert xs == [xs[0]] + xs[1..];
      1 + FirstAt(xs[1..], x)
  }
}
