/** Option and Result values used for JavaScript's `undefined`/`null` results and for thrown errors. */
module Wrappers {

  datatype Option<+T> = None | Some(value: T)

  /** The exception the modelled code can raise (JavaScript's `TypeError`). */
  datatype Error = TypeError(message: string)

  datatype Result<+T> = Ok(value: T) | Err(error: Error) {
    predicate IsFailure() { Err? }
  }
}
