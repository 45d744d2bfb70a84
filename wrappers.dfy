/** Failure-compatible result types shared by every module of the model.
    The source's `Res<T>` becomes `Result<T>`; its error kinds are the
    constructors of `Error`. */
module Wrappers {

  datatype Option<+T> = None | Some(value: T) {
    function GetOr(default: T): T {
      match this
      case Some(v) => v
      case None => default
    }
  }

  /** The error kinds the modelled code raises or forwards. */
  datatype Error =
    | PermissionDenied
    | InvalidInput
    | TimedOut
    | OutOfMemory
    | IoFault

  datatype Result<+T> = Ok(value: T) | Err(error: Error) {
    predicate IsFailure() {
      Err?
    }

    function PropagateFailure<U>(): Result<U>
      requires Err?
    {
      Err(error)
    }

    function Extract(): T
      requires Ok?
    {
      value
    }
  }

  /** `Err(e)` when a fault is reported, `Ok(v)` otherwise. */
  function FromFault<T>(fault: Option<Error>, v: T): (r: Result<T>)
    ensures r.Ok? <==> fault.None?
    ensures r.Ok? ==> r.value == v
    ensures r.Err? ==> r.error == fault.value
  {
    match fault
    case None => Ok(v)
    case Some(e) => Err(e)
  }
}
