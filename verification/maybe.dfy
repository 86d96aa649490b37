/** Optional values, standing in for the `T | null` and `T | undefined` fields of the source. */
module Maybe {

  datatype Option<+T> = None | Some(value: T) {

    /** The value, or `default` when absent (JavaScript's `x || default` on a nullable). */
    function GetOr(default: T): T {
      match this
      case Some(v) => v
      case None => default
    }
  }

  /** Outcome of an operation that may throw: the source's `throw new Error(message)`. */
  datatype Result<+T> = Success(value: T) | Failure(message: string)
}
