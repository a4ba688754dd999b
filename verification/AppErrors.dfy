/** Application errors, results and options, and the outcome of a write to an external store. */
module AppErrors {

  datatype Option<+T> = None | Some(value: T)

  datatype Code =
    | InvalidRequest | InvalidInvoiceType | InvalidAmount
    | InvalidAPIKey | APIKeyRevoked | APIKeyExpired
    | IdempotencyConflict | IdempotencyProcessing | IdempotencyNotFound
    | ARCAAuthFailed | ARCARejected | ARCAServiceUnavailable
    | DatabaseError | InternalError | NotFound | ValidationFailed
  {
    function Text(): string {
      match this
      case InvalidRequest => "invalid_request"
      case InvalidInvoiceType => "invalid_invoice_type"
      case InvalidAmount => "invalid_amount"
      case InvalidAPIKey => "invalid_api_key"
      case APIKeyRevoked => "api_key_revoked"
      case APIKeyExpired => "api_key_expired"
      case IdempotencyConflict => "idempotency_conflict"
      case IdempotencyProcessing => "idempotency_processing"
      case IdempotencyNotFound => "idempotency_not_found"
      case ARCAAuthFailed => "arca_authentication_failed"
      case ARCARejected => "arca_rejected"
      case ARCAServiceUnavailable => "arca_service_unavailable"
      case DatabaseError => "database_error"
      case InternalError => "internal_error"
      case NotFound => "not_found"
      case ValidationFailed => "validation_failed"
    }
  }

  /** A plain error, an application error, or an application error around a cause. */
  datatype Error =
    | Plain(text: string)
    | App(code: Code, message: string)
    | Wrapped(code: Code, message: string, cause: Error)
  {
    // The outermost application error decides; a plain error carries no code.
    predicate IsCode(c: Code) {
      !Plain? && code == c
    }

    function Text(): string {
      match this
      case Plain(text) => text
      case App(code, message) => code.Text() + ": " + message
      case Wrapped(code, message, cause) => code.Text() + ": " + message + ": " + cause.Text()
    }
  }

  datatype Result<+T> = Ok(value: T) | Err(error: Error)

  /** What a write to a store came to: applied and reported, refused, or applied
      although the caller was told that it failed (a lost acknowledgement). */
  datatype Write = Done | NotDone(cause: Error) | DoneUnreported(cause: Error)
  {
    predicate Applied() { !NotDone? }
    predicate Reported() { !Done? }
  }
}
