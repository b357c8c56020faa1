/** The two wrappers the ledger model uses: Option stands for a Java
    reference that may be null, Result for a call that either returns a
    value or throws. */
module Wrappers {

  datatype Option<+T> = None | Some(value: T) {

    /** The value held, or `default` for None (a null reference). */
    function GetOr(default: T): T {
      match this
      case Some(v) => v
      case None => default
    }
  }

  datatype Result<+R, +E> = Success(value: R) | Failure(error: E)
}
