/** Option for the source's nullable values, Outcome for a call that either returns or throws. */
module Wrappers {

  datatype Option<+T> = None | Some(value: T) {
    function GetOr(default: T): T {
      match this
      case Some(v) => v
      case None => default
    }
  }

  /** What a .NET call ends in: a returned value, or an exception with its message. */
  datatype Outcome<+T> = Returned(value: T) | Threw(message: string)
}
