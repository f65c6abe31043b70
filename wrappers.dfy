/** Option and Result, the two standard Rust enums the resolver chains together. */
module Wrappers {

  /** Rust's `Option<T>`. */
  datatype Option<+T> = None | Some(value: T) {

    /** Rust's `Option::ok_or`: `Some(v)` becomes `Ok(v)`, `None` becomes `Err(error)`. */
    function OkOr<E>(error: E): (r: Result<T, E>)
      ensures r.Ok? <==> Some?
      ensures r.Ok? ==> r.value == value
      ensures r.Err? ==> r.error == error
    {
      match this
      case Some(v) => Ok(v)
      case None => Err(error)
    }
  }

  /** Rust's `Result<T, E>`; usable with `:-`, which plays the part of `?`. */
  datatype Result<+T, +E> = Ok(value: T) | Err(error: E) {

    predicate IsFailure() {
      Err?
    }

    function PropagateFailure<U>(): Result<U, E>
      requires Err?
    {
      Err(error)
    }

    function Extract(): T
      requires Ok?
    {
      value
    }
  }
}
