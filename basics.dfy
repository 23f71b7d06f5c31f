/** Failure-carrying values shared by the whole model. */
module Basics {

  datatype Option<+T> = None | Some(value: T) {
    function GetOr(default: T): T {
      match this
      case Some(v) => v
      case None => default
    }
  }

  /** The outcome of a step that can fail with a message (Python raises instead). */
  datatype Result<+T> = Ok(value: T) | Err(error: string)
}
