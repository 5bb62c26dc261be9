/** Option and Result values used where the source has a nullable field or a
    thrown exception. */
module Wrappers {

  /** A value that may be absent: Java `null`, a FHIR element that is not present. */
  datatype Option<+T> = None | Some(value: T) {

    function GetOr(default: T): T {
      match this
      case Some(v) => v
      case None => default
    }
  }

  /** The outcome of an operation that returns a value or raises an exception. */
  datatype Result<+R, +E> = Success(value: R) | Failure(error: E)
}
