/** Failure-compatible wrappers, so that Rust's `?` operator is written with Dafny's `:-`. */
module Wrappers {

  datatype Option<+T> = None | Some(value: T) {
    predicate IsFailure() { None? }

    function PropagateFailure<U>(): Option<U>
      requires None?
    {
      None
    }

    function Extract(): T
      requires Some?
    {
      value
    }

    /** Rust's `Option::ok_or_else`: a missing value becomes the given error. */
    function OkOr<E>(error: E): (r: Result<T, E>)
      ensures r.Success? <==> Some?
      ensures Some? ==> r.value == value
      ensures None? ==> r.error == error
    {
      match this
      case Some(v) => Success(v)
      case None => Failure(error)
    }
  }

  datatype Result<+T, +E> = Success(value: T) | Failure(error: E) {
    predicate IsFailure() { Failure? }

    function PropagateFailure<U>(): Result<U, E>
      requires Failure?
    {
      Failure(error)
    }

    function Extract(): T
      requires Success?
    {
      value
    }
  }
}
