/** Value wrappers shared by the model of the App component. */
module Outcomes {

  /** A value that may be missing (JavaScript's `undefined`/`null`). */
  datatype Option<T> = None | Some(value: T)

  /** How an awaited HTTP request settled: rejected for any reason (transport
      error, timeout, non-2xx status), or resolved with its decoded payload. */
  datatype Outcome<T> = Failure | Success(value: T)
}
