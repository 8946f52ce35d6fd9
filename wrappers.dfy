/** Failure-carrying result types shared by every module of the model.

    The repository raises Python exceptions (ValueError, KeyError,
    ZeroDivisionError) and throws JavaScript errors (Error, TypeError,
    RangeError). Each becomes a constructor of `Failure`, with a short
    description of the condition that raised it. */
module Wrappers {

  datatype Option<T> = None | Some(value: T)

  datatype Failure =
    | ValueError(why: string)
    | KeyError(why: string)
    | ZeroDivisionError
    | TypeError(why: string)
    | RangeError(why: string)
    | Thrown(why: string)

  datatype Result<T> = Ok(value: T) | Err(failure: Failure)

  /** A JavaScript function that returns nothing or throws. */
  datatype Outcome = Pass | Fail(failure: Failure)
}
