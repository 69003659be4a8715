/** Failure-compatible wrappers and the Python exceptions the model can raise. */
module Wrappers {

  datatype Option<+T> = None | Some(value: T) {
    predicate IsFailure() { None? }

    function PropagateFailure<U>(): Option<U>
      requires None?
    {
      None
    }

    function Extract(): T
      requires Some?
    {
      value
    }

    function GetOr(default: T): T {
      match this
      case Some(v) => v
      case None => default
    }
  }

  /** The exceptions raised by the modelled Python code (or `exit(code)`); `DoesNotExist` and `IntegrityError` are peewee's. */
  datatype Exc =
    | ValueError
    | KeyError
    | IndexError
    | AttributeError
    | AssertionError
    | FileExistsError
    | FileNotFoundError
    | OSError
    | FuzzerDriverException
    | DoesNotExist
    | IntegrityError
    | Exit(code: int)

  datatype Result<+R> = Ok(value: R) | Err(error: Exc) {
    predicate IsFailure() { Err? }

    function PropagateFailure<U>(): Result<U>
      requires Err?
    {
      Err(error)
    }

    function Extract(): R
      requires Ok?
    {
      value
    }
  }

  /**
   * The end of a Python call that mutates module state: it either returns or raises,
   * and in both cases the state reached so far persists.
   */
  datatype Outcome<+S> = Done(state: S) | Raised(state: S, exc: Exc)
}
