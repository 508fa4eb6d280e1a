/** Option and Result types, and the exception kinds the converters raise. */
module Wrappers {

  datatype Option<+T> = None | Some(value: T)

  /** The Python exceptions, and the JavaScript TypeError and Error, that the modelled code can raise. */
  datatype Error =
    | ValueError(arg: string)   // float()/int() given text that is not a number
    | KeyError(key: string)     // dict subscription with a missing key
    | TypeError(what: string)   // operation applied to a value of the wrong type
    | Thrown(message: string)   // `throw new Error(message)` in JavaScript

  /** A value, or the exception that stopped the computation. */
  datatype Result<+T> = Ok(value: T) | Err(error: Error) {
    predicate IsFailure() { Err? }

    function PropagateFailure<U>(): Result<U>
      requires Err?
    {
      Err(error)
    }

    function Extract(): T
      requires Ok?
    {
      value
    }
  }
}
