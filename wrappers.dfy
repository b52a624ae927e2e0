/** Outcome types shared by the whole model: an optional value, and a value
    or the Python exception the source raises instead of returning. */
module Wrappers {

  datatype Option<+T> = None | Some(value: T)

  /** The Python exceptions the modelled code can raise, by class. */
  datatype PyError =
    | ValueError
    | KeyError(key: string)
    | IndexError
    | ZeroDivisionError
    | StopIteration
    | Raised(message: string)   // a bare `raise Exception(message)`

  datatype Result<+T> = Ok(value: T) | Err(error: PyError)
}
