/** Optional values and fallible results, used wherever the source returns `Option` or `Result`. */
module Wrappers {

  datatype Option<+T> = None | Some(value: T)

  datatype Result<+T, +E> = Ok(value: T) | Err(error: E)

  /** What a call came to, from its error if it had one. */
  function Ended<T, E>(error: Option<E>, value: T): Result<T, E> {
    if error.None? then Ok(value) else Err(error.value)
  }

  /** The same outcome with another value in case of success. */
  function Instead<T, U, E>(r: Result<T, E>, value: U): Result<U, E> {
    if r.Ok? then Ok(value) else Err(r.error)
  }
}
