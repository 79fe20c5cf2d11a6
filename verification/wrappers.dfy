/** Option and Result types, and the Python exceptions the CPU can raise. */
module Wrappers {

  datatype Option<+T> = None | Some(value: T)

  /** The exceptions the core can raise while loading or running. */
  datatype Fault =
    | IndexError                // a list subscript outside the list
    | UnsupportedAluOperation   // `alu` called with an operation other than "ADD" or "MUL"

  /** Either a value or the exception that stopped the computation; usable with `:-`. */
  datatype Result<+T> = Ok(value: T) | Err(fault: Fault) {

    predicate IsFailure() {
      Err?
    }

    function PropagateFailure<U>(): Result<U>
      requires Err?
    {
      Err(fault)
    }

    function Extract(): T
      requires Ok?
    {
      value
    }
  }
}
