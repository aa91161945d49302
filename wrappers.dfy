/** Option and the three ways an asynchronous operation of the system can end. */
module Wrappers {

  datatype Option<+T> = None | Some(value: T) {
    function GetOr(default: T): T {
      match this
      case Some(v) => v
      case None => default
    }
  }

  /** The reasons a promise of the system is rejected with. */
  datatype Error =
    | KeyInvalid        // 'encryption key invalid' from the canary check
    | BadPassword       // SunnyPass.BAD_PASSWORD_ERROR
    | StoreFailure      // an error reported by the document store
    | UnknownLocker     // a rejection without a value (unknown shared id)
    | UnknownError      // 'Unknown error' from the registries' list
    | TypeError         // an exception thrown synchronously
    | ParseError        // JSON.parse threw on a decrypted field

  /** A promise as seen after every callback that will ever run has run. */
  datatype Outcome<+T> = Resolved(value: T) | Rejected(error: Error) | Pending
}
