/** Option and Result types shared by the signature-pad modules. */
module Wrappers {

  /** An optional argument: `None` stands for a JavaScript argument that was not passed. */
  datatype Option<+T> = None | Some(value: T)

  /** The outcome of an operation that can throw in the JavaScript. */
  datatype Result<+R, +E> = Success(value: R) | Failure(error: E)
}
