/** Optional values, standing for Swift's `T?`. */
module Wrappers {

  datatype Option<+T> = None | Some(value: T) {

    /** The value, or `default` when there is none (Swift's `??`). */
    function GetOr(default: T): T {
      match this
      case Some(v) => v
      case None => default
    }
  }

  /**
   * The outcome of Swift code that either returns a value or traps at run time
   * (a force-unwrapped nil, an index out of range, a failed `assert`).
   */
  datatype Outcome<+T> = Trap | Done(value: T)
}
