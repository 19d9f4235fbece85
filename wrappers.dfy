/** Failure-carrying results, and the Python exceptions the modelled code can raise. */
module Wrappers {

  datatype Option<T> = None | Some(value: T)

  /** The exception a Python call raises, by class. */
  datatype Error =
    | ValueError
    | IndexError
    | KeyError
    | TypeError
    | ZeroDivisionError
    | RecursionError
    /** A database constraint (unique, foreign key) refuses the write. */
    | IntegrityError

  /** The value a Python call returns, or the exception it raises. */
  datatype Result<T> = Ok(value: T) | Err(error: Error)
}
