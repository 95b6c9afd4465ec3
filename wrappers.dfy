/** Wrappers shared by the model: an optional value and a
    value-or-error result, the model's stand-ins for JavaScript's `null` and
    for a rejected promise or thrown error. */
module Wrappers {

  datatype Option<+T> = None | Some(value: T)

  datatype Result<+T, +E> = Ok(value: T) | Err(error: E)

  /** What a JavaScript `throw` or promise rejection carries: an `Error`
      object with its message, or some other value (a reader's
      `ProgressEvent`, say), which `instanceof Error` does not recognise. */
  datatype Thrown = Error(message: string) | NonError
}
