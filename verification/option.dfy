/**
 * PHP's nullable values (`null` or a value) with the `??` operator, and the
 * outcome of a call that may throw instead of returning.
 */
module Optional {

  datatype Option<+T> = None | Some(value: T) {

    /** PHP `$x ?? $default`: the value when present, the default otherwise. */
    function GetOr(default: T): (r: T)
      ensures Some? ==> r == value
      ensures None? ==> r == default
    {
      match this
      case Some(v) => v
      case None => default
    }
  }

  /** A call either returns a value or throws an exception carrying a message. */
  datatype Outcome<+T> = Returns(value: T) | Throws(message: string)
}
