/** Failure-carrying results of the scope's operations. Every `std::invalid_argument`
    the C++ scope throws becomes an `Err`/`Fail` carrying one of the error kinds below. */
module Outcomes {

  /** The reasons a scope operation refuses a request. */
  datatype ScopeError =
    | NotFound            // a lookup of a name that is not registered
    | NameTaken           // an expression name already used in the same registry
    | TypeConflict        // an input name already declared with another input type
    | JointAfterNonJoint  // a new joint input after a non-joint input was declared

  datatype Option<+T> = None | Some(value: T)

  /** The result of a lookup: the value found, or why there is none. */
  datatype Result<+T> = Ok(value: T) | Err(error: ScopeError)

  /** The result of an operation that only changes state. */
  datatype Outcome = Pass | Fail(error: ScopeError)
}
