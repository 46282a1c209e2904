/** The exceptions the modelled Python code raises on its own, and the
    shape of a call that either returns a value or raises one of them. */
module Outcomes {
  datatype PyError =
    | IndexError          // indexing past the end of a list or array
    | ZeroDivisionError   // a float division by zero
    | UnboundLocalError   // reading a local that no branch assigned

  datatype Outcome<T> = Return(value: T) | Raise(error: PyError)
}
