/** Optional values and success/failure results, standing in for the
    `undefined`/`null` returns and thrown errors of the TypeScript code. */
module Wrappers {

  /** A value that may be missing (`undefined` or `null` in the source). */
  datatype Option<+T> = None | Some(value: T) {

    /** The carried value, or `default` when there is none (the `a || b` and
        spread idioms of the source). */
    function GetOr(default: T): T {
      match this
      case Some(v) => v
      case None => default
    }
  }

  /** The outcome of an operation that either returns a value or throws. */
  datatype Result<+T, +E> = Ok(value: T) | Err(error: E)
}
