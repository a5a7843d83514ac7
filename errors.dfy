/**
 * The error kinds of the engine (`GustError`) and the Option / Result
 * wrappers that every fallible operation of the model returns.
 */
module Errors {

  /** The four error kinds a command can fail with. */
  datatype GustError =
    | Io(msg: string)              // a filesystem operation failed
    | ProjectParsing(msg: string)  // a record of the project is missing or malformed
    | User(msg: string)            // the operator asked for something impossible
    | Json(msg: string)            // a stored record could not be (de)serialized

  datatype Option<+T> = None | Some(value: T) {
    function GetOr(default: T): T {
      match this
      case Some(v) => v
      case None => default
    }
  }

  /** `Result<T>` of the source: a value or a `GustError`. */
  datatype Result<+T> = Ok(value: T) | Err(error: GustError) {
    predicate IsFailure() {
      Err?
    }

    function PropagateFailure<U>(): Result<U>
      requires Err?
    {
      Err(error)
    }

    function Extract(): T
      requires Ok?
    {
      value
    }
  }
}
