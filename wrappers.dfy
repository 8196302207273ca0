// Option and Result wrappers shared by every module, and the exception
// kinds the modelled C# code throws, as values.
module Wrappers {

  datatype Option<T> = None | Some(value: T)

  /** The .NET exception a failing operation raises in the source. */
  datatype Error =
    | ArgumentNull
    | Argument
    | ArgumentOutOfRange
    | InvalidOperation
    | InvalidData
    | InvalidProgram
    | KeyNotFound
    | EndOfStream
    | IndexOutOfRange
    | NullReference
    | NotSupported
    | NotImplemented
    | TypeLoad
    | MissingMethod
    | InvalidCast
      /** The metadata provider refused to read a row that is not in its table. */
    | BadMetadataRow
      /** The model's recursion budget ran out where the source would overflow its stack. */
    | RecursionLimit

  datatype Result<T> = Ok(value: T) | Err(error: Error)
  {
    predicate IsFailure() { Err? }

    function PropagateFailure<U>(): Result<U>
      requires Err?
    {
      Err(error)
    }

    function Extract(): T
      requires Ok?
    {
      value
    }
  }
}
