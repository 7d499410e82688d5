/** Failure-carrying results used by every operation of the writer that can raise. */
module Wrappers {

  datatype Option<+T> = None | Some(value: T)

  /** The exceptions the writer raises, one constructor per raising site. */
  datatype Error =
    | InvalidDate(text: string)          // Date.parse of a yyyy-mm-dd text naming no calendar day
    | UnparsableDateTime(text: string)   // DateTime.parse rejecting a date-time text
    | InvalidFontFamily(family: string)  // Xlsxtream::Error for a family outside the six known ones
    | UnknownKeywords(keys: set<string>) // ArgumentError from a keyword-only constructor
    | NotAHash                           // ArgumentError: a non-Hash given where keyword options go
    | MissingMethod(name: string)        // NoMethodError
    | KeyNotFound(key: string)           // KeyError from Hash#fetch

  datatype Result<+T> = Ok(value: T) | Err(error: Error) {
    predicate IsFailure() { Err? }

    function PropagateFailure<U>(): Result<U>
      requires Err?
    {
      Err(error)
    }

    function Extract(): T
      requires Ok?
    {
      value
    }
  }
}
