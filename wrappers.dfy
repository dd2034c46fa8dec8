/** Optional values and fallible results, as the analyzer's Rust code uses `Option` and panics. */
module Wrappers {

  datatype Option<+T> = None | Some(value: T)

  datatype Result<+T, +E> = Ok(value: T) | Err(error: E)
}
