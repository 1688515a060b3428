/** Failure-compatible wrappers shared by the whole model.

  The client ends a step in one of three ways: with a value, with an explicit
  `sys.exit(code)`, or with an exception nobody catches. `Result` keeps the
  three apart so that the exit codes of the DNS-01 client can be stated.
 */
module Outcomes {

  datatype Option<+T> = None | Some(value: T)

  /** The Python exceptions that the modelled code can end with. */
  datatype Fault =
    | KeyError        // missing dictionary key or header
    | IndexError      // too few parts after a split
    | TypeError       // subscripting or iterating the wrong kind of value
    | ValueError      // the client's own `raise ValueError(...)`, binascii errors
    | AttributeError  // a method called on `None`
    | RuntimeError    // the transport gave up
    | FileNotFound    // `stat`/`open` on a missing file
    | NameError       // a name the module never bound
    | RequestException  // a `requests` call outside any `try` found no server or timed out

  /** A value, a `sys.exit(code)`, or an uncaught exception. */
  datatype Result<+T> = Ok(value: T) | SysExit(code: int) | Raised(fault: Fault) {

    predicate IsFailure() {
      !Ok?
    }

    function PropagateFailure<U>(): Result<U>
      requires !Ok?
    {
      if SysExit? then SysExit(code) else Raised(fault)
    }

    function Extract(): T
      requires Ok?
    {
      value
    }
  }
}
