/** Failure-carrying result types shared by the rest of the model. */
module Wrappers {

  datatype Option<T> = None | Some(value: T) {
    function GetOr(default: T): T {
      match this
      case Some(v) => v
      case None => default
    }
  }

  /** A value, or the message of the exception the program raises instead. */
  datatype Result<T> = Success(value: T) | Failure(error: string)
}
