/** Optional values and results with an error, used where the modelled code
    returns "no value" or would stop with an exception. */
module Wrappers {

  datatype Option<+T> = None | Some(value: T)

  datatype Result<+T, +E> = Ok(value: T) | Err(error: E)
}
