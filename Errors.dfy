/** The Python exceptions the mesh and trial-function code can raise, and a
    result type that carries either a value or the exception raised. */
module Errors {

  datatype Error =
    | ValueError   // list.remove of an absent item
    | IndexError   // a list or array index out of range
    | TypeError    // a trial-function entry of the wrong type

  datatype Result<+T> = Ok(value: T) | Err(error: Error)
}
