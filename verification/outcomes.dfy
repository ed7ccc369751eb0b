/** Option and Result types shared by every module, and the exceptions the
    Python code raises, as values. */
module Outcomes {

  datatype Option<+T> = None | Some(value: T)

  /** The exception classes the modelled code raises or lets through. */
  datatype Error =
    | ValueError(msg: string)             // constructor checks, int(), base64, hashlib
    | TypeError                           // hashing with no password at all
    | KeyError                            // dict.pop of a missing key
    | OverflowError(msg: string)          // hashlib: a count above C's INT_MAX
    | CommandExecutionError(msg: string)  // salt.exceptions
    | SaltInvocationError(msg: string)    // salt.exceptions
    | DatabaseError                       // sqlite3: the file is not a database
    | DecodeError                         // read_text on a file that is not text

  datatype Result<+T> = Ok(value: T) | Err(error: Error)

  /** Errors a Salt state catches and turns into result False. */
  predicate IsSaltError(e: Error) {
    e.CommandExecutionError? || e.SaltInvocationError?
  }

  /** `except ValueError as e: raise CommandExecutionError(str(e))`. */
  function AsCommandError(e: Error): Error {
    if e.ValueError? then CommandExecutionError(e.msg) else e
  }
}
