/** Optional values and error-carrying results shared by the other modules. */
module Basics {

  /** A value that may be missing: JavaScript's `undefined` and `null` are both `None`. */
  datatype Option<T> = None | Some(value: T) {
    function GetOr(default: T): T {
      match this
      case Some(v) => v
      case None => default
    }
  }

  /** The outcome of an operation that can throw. */
  datatype Result<T, E> = Ok(value: T) | Err(error: E)

  function Min(a: int, b: int): int {
    if a <= b then a else b
  }
}
