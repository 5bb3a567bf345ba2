/** Small shared vocabulary: optional values, success-or-error results and byte payloads. */
module Common {

  /** A value that may be missing (a TypeScript `undefined` or `null`). */
  datatype Option<+T> = None | Some(value: T) {

    /** The carried value, or `default` when there is none. */
    function GetOr(default: T): (r: T)
      ensures Some? ==> r == value
      ensures None? ==> r == default
    {
      match this
      case Some(v) => v
      case None => default
    }
  }

  /** Either a value or the error that was thrown instead of producing it. */
  datatype Result<+R, +E> = Success(value: R) | Failure(error: E)

  /** An opaque audio payload (an `ArrayBuffer` of MP3 data). */
  type Bytes = seq<bv8>
}
