/** Values shared by every module: Python's optional values and raised exceptions. */
module Wrappers {

  /** `None` or a value, as Python functions return them. */
  datatype Option<+T> = None | Some(value: T)

  /** The exceptions the modelled code raises; ValidationError carries the form's message. */
  datatype Exception =
    | TypeError
    | ValueError
    | IndexError
    | AttributeError
    | ZeroDivisionError
    | ValidationError(message: string)

  /** A call either returns a value or raises an exception. */
  datatype Result<+T> = Ok(value: T) | Err(error: Exception)
}
