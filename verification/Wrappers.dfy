/** Result and option types shared by every module. */
module Wrappers {

  datatype Option<+T> = None | Some(value: T)

  /** A remote call that fails may fail before or after taking effect. */
  datatype Fault = NoFault | Lost | Applied

  /** A value or an error; `:-` propagates the error. */
  datatype Result<+R, +E> = Ok(value: R) | Err(error: E) {

    predicate IsFailure() {
      Err?
    }

    function PropagateFailure<U>(): Result<U, E>
      requires Err?
    {
      Err(error)
    }

    function Extract(): R
      requires Ok?
    {
      value
    }
  }
}
