/** Optional values and error-carrying results: the shapes a request field
    and a handler's reply take once the HTTP layer is stripped away. */
module Wrappers {

  /** A value that may be absent, such as a field missing from a JSON body. */
  datatype Option<+T> = None | Some(value: T)

  /** Either a successful value or an error. */
  datatype Result<+T, +E> = Ok(value: T) | Err(error: E)
}
