/** Failure-compatible wrappers used across the model.
    - Option<T>: a Go pointer that may be nil, or a value that may be absent.
    - Result<T, E>: a Go `(value, error)` return pair, where exactly one side is meaningful.
 */
module Wrappers {

  datatype Option<+T> = None | Some(value: T) {

    predicate IsFailure() {
      None?
    }

    function PropagateFailure<U>(): Option<U>
      requires None?
    {
      None
    }

    function Extract(): T
      requires Some?
    {
      value
    }

    /** The value, or `default` when absent. */
    function GetOr(default: T): T {
      match this
      case Some(v) => v
      case None => default
    }
  }

  datatype Result<+T, +E> = Success(value: T) | Failure(error: E) {

    predicate IsFailure() {
      Failure?
    }

    function PropagateFailure<U>(): Result<U, E>
      requires Failure?
    {
      Failure(error)
    }

    function Extract(): T
      requires Success?
    {
      value
    }
  }

  /** `xs` lists every element of `s` exactly once: the shape of one iteration over a Go map's keys. */
  predicate Enumerates<T>(xs: seq<T>, s: set<T>) {
    && (forall i, j | 0 <= i < j < |xs| :: xs[i] != xs[j])
    && (forall i | 0 <= i < |xs| :: xs[i] in s)
    && (forall x | x in s :: x in xs)
  }
}
