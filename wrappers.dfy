/** Optional values and results, used for pandas' missing cells (NaN/NaT)
    and for the steps of the script that raise. */
module Wrappers {

  datatype Option<+T> = None | Some(value: T)

  datatype Result<+T, +E> = Ok(value: T) | Err(error: E)
}
