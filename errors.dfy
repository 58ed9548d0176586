/** How the authorization pipeline fails: the typed `AuthError` it raises on
    purpose, and the Python exceptions that escape it unhandled. */
module Errors {

  /** `AuthError(error, status_code)`, where `error` holds `code` and `description`. */
  datatype AuthError = AuthError(code: string, description: string, statusCode: int)

  /** Exceptions that leave the pipeline without being turned into an AuthError. */
  datatype Unhandled =
    | IndexError      // `parts[0]` on an empty split
    | AttributeError  // `.get` on a JSON value that is not an object
    | TypeError       // iterating over a JSON value that is not iterable
    | ValueError      // the key-set response body is not JSON

  /** What a call raises. */
  datatype Raised = Auth(error: AuthError) | Crash(exception: Unhandled)

  /** A call either returns a value or raises. */
  datatype Result<+T> = Ok(value: T) | Err(raised: Raised) {

    predicate IsFailure() {
      Err?
    }

    function PropagateFailure<U>(): Result<U>
      requires Err?
    {
      Err(raised)
    }

    function Extract(): T
      requires Ok?
    {
      value
    }
  }

  /** Raise `e`. */
  function Fail<T>(e: AuthError): Result<T>
  {
    Err(Auth(e))
  }

  // Errors raised by get_token_auth_header
  const HeaderMissing := AuthError("authorization_header_missing", "Authorization header is expected.", 401)
  const SchemeNotBearer := AuthError("invalid_header", "Authorization header must start with \"Bearer\".", 401)
  const TokenNotFound := AuthError("invalid_header", "Token not found.", 401)
  const NotBearerToken := AuthError("invalid_header", "Authorization header must be bearer token.", 401)

  // Errors raised by check_permissions
  const PermissionsMalformed := AuthError("invalid_claims", "Permissions claim malformed.", 400)
  const PermissionNotFound := AuthError("unauthorized", "Permission not found.", 403)

  // Error raised by _get_jwks
  const JwksFetchError := AuthError("jwks_fetch_error", "Unable to fetch JWKS from Auth0.", 500)

  // Errors raised by verify_decode_jwt
  const HeaderUnparseable := AuthError("invalid_header", "Invalid header. Could not parse authentication token.", 401)
  const KidMissing := AuthError("invalid_header", "Authorization malformed.", 401)
  const KeyNotFound := AuthError("invalid_header", "Unable to find the appropriate key.", 401)
  const TokenExpired := AuthError("token_expired", "Token expired.", 401)
  const ClaimsRejected := AuthError("invalid_claims", "Incorrect claims. Check audience and issuer.", 401)
  const TokenUnparseable := AuthError("invalid_header", "Unable to parse authentication token.", 400)
}
