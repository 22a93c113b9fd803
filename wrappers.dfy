/** Optional values (Kotlin's nullable types) and results of operations that can throw. */
module Wrappers {

  /** A Kotlin `T?`: `None` stands for `null`. */
  datatype Option<+T> = None | Some(value: T) {
    /** Kotlin's elvis operator `this ?: default`. */
    function GetOr(default: T): T
    {
      match this
      case Some(v) => v
      case None => default
    }
  }

  /** The value of an expression that either completes or throws. */
  datatype Result<+R, +E> = Ok(value: R) | Err(error: E)
}
