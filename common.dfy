/** Shared option, result and error datatypes: the error conditions the resolution layer raises. */
module Common {

  datatype Option<+T> = None | Some(value: T)

  /** A value or the exception a JavaScript call would throw (or reject with). */
  datatype Result<+T> = Success(value: T) | Failure(error: Error)

  /** The outcome of a call that returns nothing useful when it succeeds. */
  datatype Outcome = Ok | Fail(error: Error)

  /** The exceptions the modelled code can raise. */
  datatype Error =
    | ConfigError(message: string)          // thrown by the Package constructor
    | TypeError(message: string)            // a JavaScript TypeError (undefined used as a value)
    | ReferenceError(identifier: string)    // a JavaScript ReferenceError (undeclared identifier)
    | TransportError(reason: string)        // network failure surfaced by the HTTP client
    | StatusError(status: int)              // the HTTP client's rejection of a status outside 2xx
    | InstallFailed(name: string, version: string)  // npminstall rejected
}
