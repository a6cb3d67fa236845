/** Small value types for the PHP notions the model needs: a nullable value,
    and the two ways a PHP call can end (returning, or throwing). */
module Wrappers {

  /** A value that may be absent (`null` in PHP). */
  datatype Option<+T> = None | Some(value: T) {

    /** PHP's null-coalescing `$x ?? $default`. */
    function GetOr(default: T): T {
      match this
      case Some(v) => v
      case None => default
    }
  }

  /** The exceptions the modelled code throws or catches. */
  datatype Exception =
    | InvalidArgument(message: string)  // InvalidArgumentException thrown by a setter
    | PdoFailure                        // PDOException raised by the database driver

  /** How a PHP call ended: it returned a value, or it threw. */
  datatype Outcome<+T> = Returned(value: T) | Threw(exception: Exception)
}
