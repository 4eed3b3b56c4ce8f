/** Optional values, standing for Java references that may be null, and
    outcomes of operations that may throw. */
module Wrappers {

  datatype Option<+T> = None | Some(value: T) {
    function GetOr(default: T): T {
      match this
      case Some(v) => v
      case None => default
    }
  }

  /** Pass, or Fail with the exception the Java code lets escape. */
  datatype Outcome<+E> = Pass | Fail(error: E)
}
