/** Optional values and results, used for nullable columns, optional JSON
    fields and the error paths of the modelled operations. */
module Wrappers {

  datatype Option<+T> = None | Some(value: T)

  datatype Result<+R, +E> = Success(value: R) | Failure(error: E)
}
