/**
 * Option and Result wrappers, and the Python exceptions the modelled code can raise.
 */
module Wrappers {

  datatype Option<T> = None | Some(value: T)

  /** The exceptions that reach a caller of the modelled functions. */
  datatype Error =
    | KeyError(key: string)                 // dictionary lookup of a missing key (an unknown category, a missing "CATEGORY")
    | IndexError                            // indexing past the end of a list
    | ValueError(reason: string)            // a failed unpacking or a failed int()/datetime() conversion
    | TypeError(reason: string)             // an operation applied to a value of the wrong type
    | AttributeError(name: string)          // getattr of an attribute the object does not have
    | NameError(name: string)               // use of a name that was never bound
    | AssertionError                        // a failed `assert` in a validator
    | InvalidRequest(reason: string)        // the ORM refuses the request (a relationship compared to a value, a session left in a failed transaction)
    | NotFound(value: string, field: string, category: string)  // an identifier expression that matched nothing

  datatype Result<T> = Ok(value: T) | Err(error: Error) {
    predicate IsFailure() { Err? }
    function PropagateFailure<U>(): Result<U>
      requires Err?
    {
      Err(error)
    }
    function Extract(): T
      requires Ok?
    {
      value
    }
  }
}
