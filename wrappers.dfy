/** Values that stand for C#'s null references and thrown exceptions. */
module Wrappers {

  /** `None` plays the role of a null reference. */
  datatype Option<+T> = None | Some(value: T)

  /** A C# string that may be null. */
  type NullableString = Option<string>

  /** The .NET exceptions the CPF code can raise. */
  datatype Exception =
    | ArgumentException(message: string)
    | ArgumentNullException
    | FormatException
    | IndexOutOfRangeException
    | NullReferenceException

  /** A call either returns a value or throws an exception. */
  datatype Result<+T> = Success(value: T) | Failure(error: Exception)
}
