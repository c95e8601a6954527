/** Option and Result values shared by every module of the model. */
module Wrappers {

  datatype Option<+T> = None | Some(value: T) {
    function GetOr(default: T): T {
      match this
      case Some(v) => v
      case None => default
    }
  }

  /** An outcome that either carries a value or the message of an error. */
  datatype Result<+T> = Success(value: T) | Failure(error: string)
}
