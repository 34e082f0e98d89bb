/** Option and Outcome: the null references and the exceptions of the C# code
    written as values. */
module Wrappers {

  /** A C# reference that may be null: `None` is null. */
  datatype Option<+T> = None | Some(value: T) {
    function GetOr(default: T): T {
      match this
      case Some(v) => v
      case None => default
    }
  }

  /** The .NET exceptions the modelled code can raise. */
  datatype Exception =
    | NullReference        // System.NullReferenceException
    | ArgumentOutOfRange   // System.ArgumentOutOfRangeException (String.Substring)

  /** The result of a C# call that either returns a value or throws. */
  datatype Outcome<+T> = Done(value: T) | Thrown(error: Exception)
}
