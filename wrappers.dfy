/** Option and Result, the two wrapper types Rust code returns everywhere.
    Both are failure-compatible, so a method can write `var x :- M();`
    where the Rust code writes `let x = m()?;`. */
module Wrappers {

  datatype Option<T> = None | Some(value: T) {
    /** `unwrap_or` */
    function GetOr(default: T): T {
      match this
      case Some(v) => v
      case None => default
    }
  }

  datatype Result<T, E> = Success(value: T) | Failure(error: E) {
    predicate IsFailure() {
      Failure?
    }

    function PropagateFailure<U>(): Result<U, E>
      requires Failure?
    {
      Failure(error)
    }

    function Extract(): T
      requires Success?
    {
      value
    }
  }
}
