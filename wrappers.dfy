/** Optional values and failure-carrying results, standing in for TypeScript's
    `T | undefined` and for a thrown `Error`. */
module Wrappers {

  datatype Option<+T> = None | Some(value: T)

  datatype Result<+R, +E> = Success(value: R) | Failure(error: E)
}
