/** Optional values and the exceptions a command body can raise.

    Python signals failure by raising; the model returns a `Result` whose
    `Err` case names the exception class that would have been raised. */
module Outcomes {

  datatype Option<+T> = None | Some(value: T)

  /** The exception classes the modelled code paths can raise. */
  datatype Exception =
    | TypeError        // iterating a non-iterable, hashing an unhashable value
    | AttributeError   // reading `.id` of a plain string
    | IndexError       // `[0]` of an empty list, `choice` of an empty list
    | MissingArgument  // a required command argument was not supplied
    | BadArgument      // a member argument could not be resolved

  datatype Result<+T> = Ok(value: T) | Err(error: Exception)
}
