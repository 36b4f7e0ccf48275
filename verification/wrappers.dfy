/** Nullable values and error-carrying results shared by every module. */
module Wrappers {

  /** A Java reference that may be null, or a TypeScript optional field. */
  datatype Option<+T> = None | Some(value: T) {
    function GetOr(default: T): T
    {
      match this
      case Some(v) => v
      case None => default
    }
  }

  /** A computation that either yields a value or fails with a message. */
  datatype Result<+R> = Ok(value: R) | Err(error: string)
}
