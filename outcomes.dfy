/** Null-able values and exception-carrying results shared by every module.
    A Java `null` becomes `None`; a thrown exception becomes `Failure`. */
module Outcomes {

  datatype Option<+T> = None | Some(value: T)

  /** The exceptions the modelled code throws, by Java class. */
  datatype Error =
    | IllegalArgument(message: string)  // java.lang.IllegalArgumentException
    | IllegalState(message: string)     // java.lang.IllegalStateException
    | IndexOutOfBounds                  // String/ArrayIndexOutOfBoundsException
    | StackOverflow                     // unbounded self-recursion
    | NullPointer                       // java.lang.NullPointerException
    | ClassCast                         // java.lang.ClassCastException
    | RepositoryFailure(message: string) // RepositoryException wrapping an SQLException
    | EndOfStream                       // java.io.EOFException

  datatype Result<+T> = Success(value: T) | Failure(error: Error)

  /** A Java `int`. */
  newtype int32 = x: int | -0x8000_0000 <= x < 0x8000_0000

  /** `Integer.MAX_VALUE` */
  const MaxInt: int32 := 0x7fff_ffff

  /** A Java `String` that may be `null`, rendered as string concatenation does. */
  function NullText(s: Option<string>): string
  {
    if s.Some? then s.value else "null"
  }
}
