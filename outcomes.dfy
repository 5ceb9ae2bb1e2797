/** Failure-carrying results. The services return Go `error` values built
    with `errors.New(msg)`; the only thing a caller ever sees of them is the
    message text, so an error is modelled by its message. */
module Outcomes {

  datatype Option<+T> = None | Some(value: T)

  /** A value, or the message of the error returned instead. */
  datatype Result<+T> = Ok(value: T) | Err(msg: string)

  /** The result of an operation that returns only an `error`. */
  datatype Outcome = Pass | Fail(msg: string)
}
