/** Outcomes of the service's request handlers: crates/adns-server/src/lib.rs. */
module App {

  /** `MissingTarget` is the registration or challenge a request names;
      `NotFound` is anything else that is missing. */
  datatype AppError =
    | Invalid
    | NotFound
    | MissingTarget
    | Conflict
    | Denied
    | Limit
    | Unappraised
    | CryptoFailure
    | RandomFailure
    | Unavailable

  function HttpStatus(e: AppError): int {
    match e
    case Invalid => 400
    case NotFound => 404
    case MissingTarget => 404
    case Conflict => 409
    case Limit => 413
    case Denied => 403
    case Unappraised => 403
    case CryptoFailure => 403
    case RandomFailure => 403
    case Unavailable => 503
  }

  datatype Outcome<+T> = Done(value: T) | Refused(reason: AppError) {
    predicate IsFailure() { Refused? }
    function PropagateFailure<U>(): Outcome<U>
      requires Refused?
    {
      Refused(reason)
    }
    function Extract(): T
      requires Done?
    {
      value
    }
  }
}
