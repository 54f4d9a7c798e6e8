/** Option and Result, used wherever the source returns None or raises. */
module Wrappers {

  datatype Option<+T> = None | Some(value: T) {
    /** `dict.get(key, default)`-style fallback */
    function GetOr(default: T): T {
      match this
      case Some(v) => v
      case None => default
    }
  }

  /** The outcome of a call that may raise: Ok with its value, or Err with the text of the exception. */
  datatype Result<+T> = Ok(value: T) | Err(error: string)
}
