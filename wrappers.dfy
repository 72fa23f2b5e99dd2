/** Option and Result, the two failure-carrying types the model needs:
    an optional field (a website's description, a drag monitor's item type)
    and an operation that may throw (deleting from a missing category). */
module Wrappers {

  datatype Option<+T> = None | Some(value: T)

  datatype Result<+T, +E> = Ok(value: T) | Err(error: E)
}
