/**
 * Values shared by every part of the authentication core: an optional value,
 * the error taxonomy, and a result that carries either a value or one error.
 *
 * Each exception the service throws becomes one `AuthError` constructor; an
 * operation that may throw returns a `Result`.
 */
module Common {

  datatype Option<+T> = None | Some(value: T) {
    function GetOr(default: T): T {
      match this
      case Some(v) => v
      case None => default
    }
  }

  /** The failures of the core, one constructor per exception kind. */
  datatype AuthError =
    | IncorrectConfirmPassword   // IncorrectConfirmPasswordException
    | UserAlreadyExists          // UserAlreadyExistException
    | InvalidCredential          // InvalidCredentialException
    | InvalidSessionRequest      // InvalidSessionRequestException
    | SessionExpired             // SessionExpiredException
    | Unauthorized               // Nest's UnauthorizedException
    | TokenInvalid               // any error raised by jsonwebtoken's verify
    | RecordNotFound             // the store's "record to update not found"
    | UniqueViolation            // the store's unique-constraint failure
    | InvalidQuery               // the store refusing a malformed query: an undefined unique key, an empty select

  datatype Result<+T> = Ok(value: T) | Err(error: AuthError)

  /**
   * The HTTP status a client sees for each error. The five domain exceptions
   * are caught by the controller's exception filters and answered with 400;
   * Unauthorized is Nest's own 401; everything else reaches Nest's default
   * handler, which answers 500.
   */
  function HttpStatus(e: AuthError): (status: int)
    ensures status == 400 <==> e in {IncorrectConfirmPassword, UserAlreadyExists, InvalidCredential,
                                     InvalidSessionRequest, SessionExpired}
    ensures status == 401 <==> e == Unauthorized
    ensures status in {400, 401, 500}
  {
    match e
    case IncorrectConfirmPassword => 400
    case UserAlreadyExists => 400
    case InvalidCredential => 400
    case InvalidSessionRequest => 400
    case SessionExpired => 400
    case Unauthorized => 401
    case _ => 500
  }
}
