/** Optional values and success-or-error results, the shapes every handler of
    the item service returns before the transport turns them into HTTP. */
module Wrappers {

  /** A value that may be absent (a missing request parameter, a lookup miss). */
  datatype Option<+T> = None | Some(value: T) {

    /** The carried value, or `default` when there is none. */
    function GetOr(default: T): T {
      match this
      case Some(v) => v
      case None => default
    }
  }

  /** Either the operation's value or the error the handler answers with.
      Usable with `:-`, so the first failing step decides the error. */
  datatype Result<+T, +E> = Ok(value: T) | Err(error: E) {

    predicate IsFailure() {
      Err?
    }

    function PropagateFailure<U>(): Result<U, E>
      requires Err?
    {
      Err(error)
    }

    function Extract(): T
      requires Ok?
    {
      value
    }
  }
}
