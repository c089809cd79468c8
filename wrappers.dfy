/** Option and Result values, and the exceptions the modelled code raises. */
module Wrappers {

  datatype Option<+T> = None | Some(value: T)

  /** The .NET exception types that the modelled code throws (or lets escape). */
  datatype Exception =
    | ArgumentNull(param: string)
    | ArgumentOutOfRange(param: string)
    | ArgumentError(message: string)
    | NotSupported(message: string)
    | NotImplemented(message: string)
    | InvalidOperation(message: string)
    | InvalidCast
    | IndexOutOfRange
    | NullReference
    | Format
    | Overflow
    | AmbiguousMatch
    | GeneralError(message: string)

  /** Either a value, or the exception that aborted the computation. */
  datatype Result<+T> = Ok(value: T) | Err(error: Exception) {
    predicate IsFailure() { Err? }

    function PropagateFailure<U>(): Result<U>
      requires Err?
    {
      Err(error)
    }

    function Extract(): T
      requires Ok?
    {
      value
    }
  }
}
