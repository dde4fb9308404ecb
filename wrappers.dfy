/** Optional values and error-or-value results, standing for the null pointers and early
    `return NULL` paths of the C++ code. */
module Wrappers {

  datatype Option<+T> = None | Some(value: T)

  datatype Result<+T, +E> = Success(value: T) | Failure(error: E)
}
