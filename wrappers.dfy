/** Optional values and results with an error, used for `npos` and for C++ exceptions. */
module Wrappers {

  /** A search result: `None` stands for `std::string::npos`. */
  datatype Option<+T> = None | Some(value: T)

  /** A computation that either yields a value or raises an error. */
  datatype Result<+T, +E> = Ok(value: T) | Err(error: E)
}
