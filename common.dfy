/** Bytes, the .NET exceptions the decoder can raise, and a failure-compatible result. */
module Common {

  /** One payload byte. */
  type Byte = b: int | 0 <= b < 0x100

  /** The exception classes the decoder lets escape, one constructor each. */
  datatype Error =
    | FormatError            // System.FormatException
    | ArgumentError          // System.ArgumentException
    | OverflowError          // System.OverflowException
    | KeyNotFound(key: int)  // System.Collections.Generic.KeyNotFoundException
    | NullReference          // System.NullReferenceException
    | InvalidCast            // System.InvalidCastException

  /** A value, or the exception that was thrown instead. */
  datatype Result<+T> = Ok(value: T) | Err(error: Error) {
    predicate IsFailure() {
      Err?
    }

    function PropagateFailure<U>(): Result<U>
      requires Err?
    {
      Err(error)
    }

    function Extract(): T
      requires Ok?
    {
      value
    }
  }

  function Min(a: int, b: int): int {
    if a <= b then a else b
  }
}
