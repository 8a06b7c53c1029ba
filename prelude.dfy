/** Failure-compatible wrappers and the mutable cell that stands for a Go pointer. */
module Wrappers {

  datatype Option<+T> = None | Some(value: T) {
    predicate IsFailure() {
      None?
    }

    function PropagateFailure<U>(): Option<U>
      requires None?
    {
      None
    }

    function Extract(): T
      requires Some?
    {
      value
    }
  }

  datatype Result<+T, +E> = Ok(value: T) | Err(error: E) {
    predicate IsFailure() {
      Err?
    }

    function PropagateFailure<U>(): Result<U, E>
      requires Err?
    {
      Err(error)
    }

    function Extract(): T
      requires Ok?
    {
      value
    }
  }

  /** A mutable cell: what a Go pointer `*T` handed to an `UnmarshalJSON` receiver is in this model. */
  class Ref<T> {
    var value: T

    constructor (v: T)
      ensures value == v
    {
      value := v;
    }
  }
}

/** The Go machine types the model needs. */
module Bytes {

  /** Go's `byte`. */
  type byte = x: int | 0 <= x < 256

  /** Go's `int` on a 64-bit platform. */
  type Int = x: int | -0x8000_0000_0000_0000 <= x < 0x8000_0000_0000_0000
}
