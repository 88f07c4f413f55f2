/** Small result types shared by the other modules. */
module Wrappers {

  /** A value that may be absent: the source's `undefined` / `null`. */
  datatype Option<T> = None | Some(value: T)

  /** The outcome of an operation that may throw: Fail carries the error's message. */
  datatype Outcome = Pass | Fail(error: string)
}
