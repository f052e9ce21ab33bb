/** Failure-carrying values used where the program throws, exits or returns undefined. */
module Wrappers {

  /** A value that may be missing (`undefined` / `null` in the program). */
  datatype Option<+T> = None | Some(value: T)

  /** `o ?? dflt`, and `opts.x || "dflt"` on an option already parsed. */
  function OrDefault<T>(o: Option<T>, dflt: T): T {
    if o.Some? then o.value else dflt
  }

  /** The outcome of an operation that may throw or exit with an error message. */
  datatype Result<+T, +E> = Success(value: T) | Failure(error: E)
}
