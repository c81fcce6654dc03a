/** Failure and absence wrappers shared by every component. */
module Wrappers {
  datatype Option<+T> = None | Some(value: T)

  datatype Result<+T, +E> = Ok(value: T) | Err(error: E)

  /** Subtraction that stops at zero. */
  function SatSub(a: nat, b: nat): nat
  {
    if a >= b then a - b else 0
  }
}
