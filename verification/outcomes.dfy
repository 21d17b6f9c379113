/** Optional values and the exception outcomes of the modelled C# code.
    A C# `null` becomes `None`; a thrown exception becomes `Throw`. */
module Outcomes {

  datatype Option<+T> = None | Some(value: T) {
    function GetOr(default: T): T {
      match this
      case Some(v) => v
      case None => default
    }
  }

  /** The two exception classes the modelled code can raise. */
  datatype Error =
    | InvalidOperation   // System.InvalidOperationException, thrown explicitly
    | NullReference      // System.NullReferenceException, raised by dereferencing null

  datatype Result<+T> = Ok(value: T) | Throw(error: Error)
}
