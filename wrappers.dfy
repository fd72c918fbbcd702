/** Optional values and results that carry an error message, used wherever the
    Python code returns None or raises. */
module Wrappers {

  datatype Option<+T> = None | Some(value: T) {
    function GetOr(default: T): T {
      match this
      case Some(v) => v
      case None => default
    }
  }

  /** An optional value as a list of zero or one element. */
  function Listed<T>(o: Option<T>): seq<T> {
    match o
    case None => []
    case Some(x) => [x]
  }

  /** Success value or the message an exception would carry. */
  datatype Result<+T> = Ok(value: T) | Err(error: string)

  /** One field of a partial update (`model_dump(exclude_unset=True)`): absent
      from the request, or explicitly set to a value. */
  datatype Patch<+T> = Keep | Set(value: T) {
    /** The field after the update, given its current value. */
    function Over(current: T): T {
      match this
      case Keep => current
      case Set(v) => v
    }
  }
}
