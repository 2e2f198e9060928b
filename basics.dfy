/** Failure-carrying wrappers shared by every component of the model. */
module Basics {

  /** A value that may be absent: a null cell, a missing cache file, a failed fetch. */
  datatype Option<+T> = None | Some(value: T)

  /** The outcome of an operation that the source lets raise. */
  datatype Result<+T, +E> = Ok(value: T) | Err(error: E)

  /** Python's max(0, n), used for range(n) with a possibly negative n. */
  function Clamp(n: int): (r: nat)
    ensures n <= 0 ==> r == 0
    ensures n >= 0 ==> r == n
  {
    if n < 0 then 0 else n
  }
}
