/** Shared value types: optional values, the error taxonomy of the banking core, and results. */
module Common {

  /** A value that may be absent; `None` stands for Java's `null`. */
  datatype Option<+T> = None | Some(value: T) {
    function GetOr(default: T): T {
      match this
      case Some(v) => v
      case None => default
    }
  }

  /** The failure kinds the services raise. */
  datatype Error =
    | NotFound                                       // ResourceNotFoundException
    | Forbidden                                      // ForbiddenException
    | Conflict                                       // ConflictException
    | InvalidArgument                                // IllegalArgumentException
    | InsufficientFunds(available: int, requested: int)  // InsufficientFundsException, amounts in pence
    | NullReference                                  // an uncaught NullPointerException
    | ConstraintViolation                            // a database column or unique constraint refused a write

  /** The outcome of an operation that returns a value or throws. */
  datatype Result<+T> = Success(value: T) | Failure(error: Error) {
    function GetOr(default: T): T {
      match this
      case Success(v) => v
      case Failure(_) => default
    }

    function ToOutcome(): Outcome {
      match this
      case Success(_) => Pass
      case Failure(e) => Fail(e)
    }
  }

  /** The outcome of an operation that returns nothing or throws. */
  datatype Outcome = Pass | Fail(error: Error)
}
