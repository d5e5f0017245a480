/** Option and Result, the failure-carrying datatypes the rest of the model returns
    where the JavaScript source returns `undefined`/`null` or throws. */
module Wrappers {

  /** A value that may be absent: `None` stands for JavaScript's `undefined` or `null` result. */
  datatype Option<+T> = None | Some(value: T)

  /** Either a returned value or a thrown error. */
  datatype Result<+R, +E> = Success(value: R) | Failure(error: E)
}
