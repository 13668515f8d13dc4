/** Failure-carrying values used throughout the client model. */
module Wrappers {

  /** An optional value: the outcome of a collaborator that can fail without saying why. */
  datatype Option<+T> = None | Some(value: T)

  /** A value or the one error that stopped the computation. */
  datatype Result<+R, +E> = Ok(value: R) | Err(error: E)
}
