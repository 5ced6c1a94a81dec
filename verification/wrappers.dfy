/** Failure-compatible result types shared by every module of the model.
    A Python exception raised by the modelled code becomes `Err(fault)`,
    where the fault names the exception class the code would raise. */
module Wrappers {

  datatype Option<+T> = None | Some(value: T)

  /** The exception classes the modelled code can raise. */
  datatype Fault =
    | AssertionError(message: string)
    | AttributeError(attribute: string)
    | IndexError
    | KeyError(key: string)
    | IOError(path: string)
    | TypeError
    | ValueError(message: string)
    | ZeroDivisionError

  datatype Result<+T> = Ok(value: T) | Err(fault: Fault) {

    predicate IsFailure() {
      Err?
    }

    function PropagateFailure<U>(): Result<U>
      requires Err?
    {
      Err(fault)
    }

    function Extract(): T
      requires Ok?
    {
      value
    }
  }
}
