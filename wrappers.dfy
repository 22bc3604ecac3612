/** Small value wrappers shared by the backup model. */
module Wrappers {

  /** A value that may be absent: Python's `None` versus a real value. */
  datatype Option<+T> = None | Some(value: T)

  /** The outcome of an operation that either completes or stops with an error. */
  datatype Outcome<+E> = Pass | Fail(error: E)
}
