/** Value types shared by the credential codec and the session model: the
    .NET integer widths it uses, Option, and the outcome of a call that can
    throw. */
module Common {

  /** System.Byte. */
  type Byte = x: int | 0 <= x < 256

  /** System.Int32. */
  type Int32 = x: int | -0x8000_0000 <= x < 0x8000_0000

  datatype Option<T> = None | Some(value: T)

  /** The .NET exceptions that can leave the modelled operations. */
  datatype Exception =
    | ArgumentNullException        // a required argument is null
    | ArgumentOutOfRangeException  // a numeric argument is out of its range
    | ArgumentException            // an argument is otherwise unacceptable
    | FormatException              // a text argument is not in the expected format

  /** What a call does: it returns a value or throws an exception. */
  datatype Outcome<T> = Returned(value: T) | Threw(exception: Exception)
}
