/** Optional values and error results, standing for C#'s `null` and for thrown exceptions. */
module Wrappers {

  /** A value that may be absent: `null` in the source. */
  datatype Option<+T> = None | Some(value: T) {
    function GetOr(default: T): T {
      match this
      case Some(v) => v
      case None => default
    }
  }

  /** The .NET exceptions that the modelled code throws on purpose. */
  datatype Exception =
    | ArgumentException(message: Option<string>, argName: Option<string>)
    | ArgumentOutOfRangeException(paramName: string)
    | InvalidOperationException

  /** A computation that either returns a value or throws. */
  datatype Result<+T> = Success(value: T) | Failure(error: Exception)
}
