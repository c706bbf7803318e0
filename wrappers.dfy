/** Option and Result, the failure-carrying datatypes the model uses for the
    store's lookup and for its not-found error. */
module Wrappers {

  datatype Option<+T> = None | Some(value: T)

  datatype Result<+R, +E> = Success(value: R) | Failure(error: E)
}
