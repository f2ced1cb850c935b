/** Failure values shared by the model: Python's exceptions become data. */
module Errors {

  datatype Option<T> = None | Some(value: T)

  /** The exceptions the modelled code raises, with the part of the message it names. */
  datatype Error =
    | KeyError(key: string)          // missing key of an attribute bag
    | TypeError(message: string)     // a value of the wrong type put into a timeline slot
    | AttributeError(name: string)   // an unknown collection name asked of a cosmology

  /** A value or the exception raised instead of returning it. */
  datatype Result<T> = Ok(value: T) | Err(error: Error)

  /** A statement that either completes or raises. */
  datatype Outcome = Pass | Fail(error: Error)
}
