/** Failure-compatible result types used throughout the model. */
module Wrappers {

  /** An optional value; `None` plays the role of Python's `None`. */
  datatype Option<+T> = None | Some(value: T)

  /** The value of a computation, or the exception that aborted it. */
  datatype Result<+T, +E> = Success(value: T) | Failure(error: E)

  /** The Python exceptions the scanned code can raise. */
  datatype Fault =
    | IndexError   // a list index outside [-len, len)
    | NoSignature  // `re.search(...)` found nothing, so `.group()` raised
    | ValueError   // `int(...)` on text that is not an integer literal
    | NameError    // a name the module never bound: `re` in the registry scanner
}
