/** The answer of a request handler: a value, or an HTTP status with an error message. */
module Outcomes {
  datatype Outcome<T> = Ok(value: T) | Fail(status: nat, message: string)
}
