/** Optional values, results and the error kinds the compiler front end raises. */
module Wrappers {

  datatype Option<+T> = None | Some(value: T)

  datatype Result<+T, +E> = Ok(value: T) | Err(error: E)

  /** The result of an operation that changes state and may fail. */
  datatype Outcome<+E> = Pass | Fail(error: E)
}

/**
 * Every failure below is a `ValueError` in the source; the constructors only
 * record which check raised it.
 */
module Errors {

  datatype Error =
    | MalformedArrow(arrow: string)        // "Unexpected arrow syntax"
    | InvalidConfiguration                 // Config(**d) rejected the keyword arguments
    | UnknownTheme(theme: string)          // "Invalid theme" / "Unexpected theme"
    | MalformedDirective(line: string)     // `key, value = ....split(":")` did not unpack
    | UnexpectedConfigKey(key: string)     // "Unexpected config key"
}
