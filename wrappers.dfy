/** Option and Result, used for nullable fields, lookups that can miss and field cleaning. */
module Wrappers {

  datatype Option<+T> = None | Some(value: T)

  datatype Result<+R, +E> = Success(value: R) | Failure(error: E)
}
