/** Error kinds and failure-carrying return values shared by the storage
    and pipeline modules. ArmoniK.Core throws exceptions for these
    conditions; here they are returned as values. */
module Failures {

  /** The not-found, duplicate-key and invalid-transition conditions the
      core raises. */
  datatype ErrorKind =
    | SessionNotFound(sessionId: string)
    | ResultNotFound(resultId: string)
    | TaskNotFound(taskId: string)
    | KeyAlreadyExists(key: string)
    | KeyNotFound(key: string)
    | InvalidOperation

  /** Either the operation's value or the condition it raised. */
  datatype Outcome<+T> = Ok(value: T) | Fail(error: ErrorKind)

  datatype Option<+T> = None | Some(value: T)
}
