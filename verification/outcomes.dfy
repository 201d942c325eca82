/** Failure-carrying values used throughout the model.
    A Python call that may raise is modelled as a `Result`: either the value it
    returned or the text `str(e)` of the exception it raised. */
module Outcomes {

  /** Python's `None` versus a present value. */
  datatype Option<+T> = None | Some(value: T) {
    function GetOr(default: T): (r: T)
      ensures Some? ==> r == value
      ensures None? ==> r == default
    {
      match this
      case Some(v) => v
      case None => default
    }
  }

  /** The outcome of a call into code outside the model. */
  datatype Result<+T> = Ok(value: T) | Raised(message: string) {
    /** The value, or `default` when the call raised. */
    function ValueOr(default: T): (r: T)
      ensures Ok? ==> r == value
      ensures Raised? ==> r == default
    {
      match this
      case Ok(v) => v
      case Raised(_) => default
    }
  }

  /** A call whose only interesting outcome is whether it raised. */
  type Attempt = Result<()>
}
