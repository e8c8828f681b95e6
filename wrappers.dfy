/** Option and Result values used for the null returns and thrown errors of the JavaScript server. */
module Wrappers {

  datatype Option<+T> = None | Some(value: T)

  /** A thrown error of the JavaScript server becomes `Failure`; a normal return becomes `Success`. */
  datatype Result<+R, +E> = Success(value: R) | Failure(error: E)

  /** For operations that change state and return nothing of interest. */
  datatype Outcome<+E> = Pass | Fail(error: E)

  function Min(a: int, b: int): (m: int)
    ensures m <= a && m <= b && (m == a || m == b)
  {
    if a <= b then a else b
  }
}
