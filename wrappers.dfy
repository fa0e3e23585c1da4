/** Optional values, results, and the Python exceptions the modelled code raises. */
module Wrappers {

  datatype Option<+T> = None | Some(value: T)

  datatype Result<+T, +E> = Ok(value: T) | Err(error: E)

  /** The exceptions that escape the modelled functions, with the part of their payload the code fixes. */
  datatype Exception =
    | TypeError
    | ValueError(message: string)
    | KeyError(key: string)
    | IndexError
    | UnboundLocalError(name: string)
}
