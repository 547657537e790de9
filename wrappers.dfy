/** Optional values and results of operations that can throw. */
module Wrappers {

  /** A value that may be missing (`undefined` or `null` in the source). */
  datatype Option<+T> = None | Some(value: T)

  /** The outcome of a query or mutation handler: its value, or the error it throws. */
  datatype Result<+T> = Success(value: T) | Failure(error: string)

  /** `x || ""` for an optional string. */
  function OrEmpty(o: Option<string>): string
  {
    if o.Some? then o.value else ""
  }
}
