/** Failure-carrying values shared by the model. */
module Wrappers {

  datatype Option<+T> = None | Some(value: T)

  /** The ways a call can end other than by returning a value.

      The first six are the library's exceptions (or the C error code with the same name), the next
      three are raised by the Python layer. `Undefined` marks a call for which the C++ reads outside its
      buffers, so that the language gives it no meaning. */
  datatype Error =
    | KeyNotFound
    | Timeout
    | RankMismatch
    | DTypeMismatch
    | Metadata
    | BufferTooSmall
    | IndexError
    | TypeError
    | ValueError
    | Undefined

  datatype Result<+T> = Ok(value: T) | Err(error: Error)

  function Lookup<K, V>(m: map<K, V>, k: K): Option<V> {
    if k in m then Some(m[k]) else None
  }
}
