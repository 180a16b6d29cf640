/** Failure-carrying result types shared by the modules of this model. */
module Wrappers {

  /** A value that may be absent: a null handle, a missing map key, a lookup that failed. */
  datatype Option<+T> = None | Some(value: T)

  /** An operation outcome carrying either a value or an error description. */
  datatype Result<+T, +E> = Ok(value: T) | Err(error: E)

  function Min(a: int, b: int): int { if a < b then a else b }

  function Max(a: int, b: int): int { if a < b then b else a }
}
