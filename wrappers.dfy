// Shared result types: Python return-or-raise behaviour is modelled as a value.
module Wrappers {

  datatype Option<T> = None | Some(value: T)
  {
    predicate IsSome() { this.Some? }
  }

  /** The Python exceptions the modelled code raises. */
  datatype Error =
    | TypeError
    | KeyError
    | ValueError
    | RuntimeError
    | IndexError
    | ZeroDivisionError

  datatype Result<T> = Ok(value: T) | Err(error: Error)
  {
    predicate IsOk() { this.Ok? }
  }

  /** An operation that returns nothing but may raise. */
  datatype Status = Done | Raised(error: Error)
}
