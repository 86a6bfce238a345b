/** Outcome types shared by every module.

    `Error` keeps the exception class the program raises; message texts are not modelled.
 */
module Errors {
  datatype Error =
    | ConfigurationError
    | ProtocolError
    | ResponseParseError
    | UnsupportedOperationError
    | NotConnectedError
    | TransportError
    | TransportTimeoutError
    | SessionClosedError
    | IdentityError
    | OperationTimeoutError
    | IndexError

  /** A returned value, or the exception that left the call. */
  datatype Result<+T> = Ok(value: T) | Err(error: Error) {
    predicate IsFailure() {
      Err?
    }

    function PropagateFailure<U>(): Result<U>
      requires Err?
    {
      Err(error)
    }

    function Extract(): T
      requires Ok?
    {
      value
    }
  }

  datatype Option<+T> = None | Some(value: T)
}
