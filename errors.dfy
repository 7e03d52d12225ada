/** The exceptions the modelled Python code can raise on reachable inputs,
    and the result type that carries them. */
module Errors {

  datatype Error =
    | ZeroDivisionError  // a division or modulo by zero
    | IndexError         // a list index past the end
    | KeyError           // a dictionary lookup of a missing key
    | UnboundLocalError  // a local variable read before any assignment

  datatype Result<T> = Ok(value: T) | Failure(error: Error)
}
