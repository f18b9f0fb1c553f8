/** Failure-carrying values shared by the scraper model.

    The scraper has no error handling of its own: every failure is a Python
    exception that propagates to the caller. `PyError` names the exception
    kinds the modelled code can raise, and `Result` carries either a value or
    the exception that replaced it.
 */
module Wrappers {

  /** The Python exceptions raised by the modelled code paths. */
  datatype PyError =
    | AssertionError  // a structural `assert` on the markup failed
    | ValueError      // `int(...)` was given text that is not a decimal numeral
    | IndexError      // `[0]` on an empty list (no whitespace-separated token)

  datatype Option<+T> = None | Some(value: T)

  datatype Result<+T> = Ok(value: T) | Err(error: PyError)
}
