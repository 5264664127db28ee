/** Option and Result, used for pattern captures and for the paths on which the Ruby code raises. */
module Wrappers {

  /** A pattern capture: `Some(node)` when the pattern matched and captured `node`, `None` for Ruby's `nil`. */
  datatype Option<+T> = None | Some(value: T)

  /** The outcome of a call that may raise: `Failure` carries the exception's message. */
  datatype Result<+T> = Success(value: T) | Failure(error: string)
}
