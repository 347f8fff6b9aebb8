/** Optional values and results with an error, standing for TypeScript's
    `T | null` / `?.` chains and for a thrown `Error`. */
module Wrappers {

  datatype Option<+T> = None | Some(value: T)

  datatype Result<+T, +E> = Success(value: T) | Failure(error: E)
}
