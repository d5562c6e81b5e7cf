/** Results, optional values and the error values shared by every component. */
module Wrappers {

  /** The library's sentinel errors, its configuration errors, and whatever a caller's engine reports. */
  datatype Error =
    | TokenMissing
    | InvalidSecWebSocketHeader
    | InvalidToken
    | TokenRevoked
    | ClaimsRequired
    | CheckerNotConfigured
    | SubjectRequired
    | Backend(message: string)

  datatype Option<+T> = None | Some(value: T)

  /** A Go pair `(value, err)`: the value is meaningful only when there is no error. */
  datatype Result<+T> = Success(value: T) | Failure(error: Error)

  function ToSet<T(==)>(s: seq<T>): set<T> {
    set x | x in s
  }
}
