/** Option and Result: the absent values (`null`, `undefined`) and the thrown errors of the service. */
module Wrappers {

  datatype Option<+T> = None | Some(value: T)

  datatype Result<+R, +E> = Success(value: R) | Failure(error: E)
}
