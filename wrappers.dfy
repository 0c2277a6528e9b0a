/** Result wrappers used across the model: an optional value and a pass/fail outcome. */
module Wrappers {

  /** A value that may be absent; Python's `None` is `None` here. */
  datatype Option<+T> = None | Some(value: T)

  /** The outcome of an operation that returns nothing on success and raises `error` on failure. */
  datatype Outcome<+E> = Pass | Fail(error: E)
}
