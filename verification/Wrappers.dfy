/** Failure-compatible results, with the error kinds the crate's `MeshError` distinguishes. */
module Wrappers {
  datatype Option<+T> = None | Some(value: T)

  /** One constructor for each error condition the modelled code can report. */
  datatype Error =
    | Malformed
    | NoSendingChain
    | NoRemoteKey
    | NoReceivingChain
    | KeyAlreadyConsumed
    | TooManySkipped
    | OpenFailed
    | BadSignature

  datatype Result<+T> = Success(value: T) | Failure(error: Error) {
    predicate IsFailure() { Failure? }

    function PropagateFailure<U>(): Result<U>
      requires Failure?
    {
      Failure(error)
    }

    function Extract(): T
      requires Success?
    {
      value
    }
  }
}
