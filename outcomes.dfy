/** The failure that the modelled code can raise, and the result type that
    carries it in place of a Python exception. */
module Outcomes {

  /** `IndexError`: a bounding box with fewer than four entries is indexed
      past its end. */
  datatype Error = IndexError

  datatype Result<+T> = Ok(value: T) | Err(error: Error)
}
