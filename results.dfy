/** Option and Result wrappers, and the errors the modelled code can raise. */
module Results {

  datatype Option<+T> = None | Some(value: T)

  /** The exceptions of the modelled Python code, one constructor per kind. */
  datatype Error =
    | MissingColumns(names: seq<string>)  // KeyError from selecting absent columns
    | NotAnInteger(column: string)        // astype(int) on a missing value
    | NoDateMethod                        // `.date()` called on a text value
    | NoLatestRow                         // `fetchone()` gave None and was indexed
    | BadDuration(text: string)           // to_timedelta on a malformed string
    | UnboundAllTime                      // the all-time mean read before it was set

  datatype Result<+T> = Success(value: T) | Failure(error: Error) {
    predicate IsFailure() {
      Failure?
    }

    function PropagateFailure<U>(): Result<U>
      requires Failure?
    {
      Failure(error)
    }

    function Extract(): T
      requires Success?
    {
      value
    }
  }
}
