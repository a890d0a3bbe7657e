/** The failures a call into the container can end in (PSR-11, section 1.2
    "Exceptions"). The only one the container raises itself is the not-found
    error (`EntityNotFoundException`, a kind of `ContainerException`); anything
    a callable entry throws reaches the caller unwrapped, whatever its class.
    `IsNotFound` picks out the errors a caller may catch as "not found". */
module Errors {

  datatype ContainerError =
    | EntityNotFound(id: string)          // raised by `get` for an id `has` rejects
    | ResolverFailure(message: string)    // whatever a callable entry throws, passed on as it is
  {
    /** True for exactly the errors a PSR-11 caller may catch as "not found". */
    predicate IsNotFound() {
      EntityNotFound?
    }
  }

  /** The outcome of a call that may throw: a returned value or the thrown error. */
  datatype Result<+T> = Ok(value: T) | Err(error: ContainerError)
}
