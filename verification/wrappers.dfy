/** Optional values and success/failure outcomes shared by every module. */
module Wrappers {

  /** A value that may be absent: JavaScript's null/undefined, Python's None. */
  datatype Option<+T> = None | Some(value: T) {
    function GetOr(default: T): T {
      match this
      case Some(v) => v
      case None => default
    }
  }

  /** The outcome of an operation that can raise: a value, or the error text it raised with. */
  datatype Result<+T> = Success(value: T) | Failure(error: string)
}
