/** Option and Result values used for lookups that may miss and for the
    error paths of the registry (validation, not-found, malformed file). */
module Wrappers {

  datatype Option<+T> = None | Some(value: T)

  datatype Result<+R, +E> = Ok(value: R) | Err(error: E)
}
