/** Optional values and results for the exceptions the folder-index pipeline can raise. */
module Base {

  datatype Option<+T> = None | Some(value: T)

  /** The Python exception classes the modelled code can raise, by name. */
  datatype Exception =
    | NotImplementedError  // a nested mapping field met while merging a record
    | TypeError            // an operator or builtin applied to a value of the wrong type
    | AttributeError       // a dict method looked up on a value that is not a dict
    | KeyError             // a key missing from a decoded JSON document
    | IndexError           // an index past the end of a list
    | ValueError           // `max` of an empty sequence

  /** Either a value or the exception that aborted the computation; usable with `:-`. */
  datatype Result<+T> = Ok(value: T) | Err(error: Exception) {
    predicate IsFailure() { Err? }

    function PropagateFailure<U>(): Result<U>
      requires Err?
    {
      Err(error)
    }

    function Extract(): T
      requires Ok?
    {
      value
    }
  }
}
