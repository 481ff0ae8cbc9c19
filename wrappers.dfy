// Shared result and option types. Python exceptions raised by the modelled
// code become `Fail` values carrying the exception class.
module Wrappers {
  datatype Option<T> = None | Some(value: T)

  /** The Python exception classes the modelled code raises. */
  datatype ErrorKind =
    | CommandError      // s2e_env.command.CommandError
    | TargetError       // project_creation.target.TargetError
    | ArgumentTypeError // argparse.ArgumentTypeError
    | ValueError
    | KeyError
    | TypeError
    | AttributeError
    | IndexError
    | StructError       // struct.error
    | TraceEntryError   // execution_trace.trace_entries.TraceEntryError
    | NotImplementedError
    | PlainException    // a bare `Exception`

  /** The outcome of a Python procedure that returns nothing or raises. */
  datatype Outcome = Pass | Raise(error: ErrorKind)

  datatype Result<T> = Ok(value: T) | Fail(error: ErrorKind)
  {
    predicate IsFailure() { Fail? }

    function PropagateFailure<U>(): Result<U>
      requires Fail?
    {
      Fail(error)
    }

    function Extract(): T
      requires Ok?
    {
      value
    }
  }
}
