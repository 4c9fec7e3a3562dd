/** The Option and Result datatypes shared by every module of the model. */
module Wrappers {

  /** A value that may be absent: SQL NULL, a JavaScript `undefined`, an empty query result. */
  datatype Option<+T> = None | Some(value: T)
  {
    function GetOr(default: T): T
    {
      match this
      case Some(v) => v
      case None => default
    }
  }

  /** The outcome of a step that can throw: `Ok` carries the value, `Err` what was thrown. */
  datatype Result<+T, +E> = Ok(value: T) | Err(error: E)
}
