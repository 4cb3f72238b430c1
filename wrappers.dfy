/** Optional and result values, used where the source returns `undefined`, `false` or
    stops with an error. */
module Wrappers {

  datatype Optional<+T> = None | Some(value: T)

  datatype Result<+T, +E> = Ok(value: T) | Err(error: E)
}
