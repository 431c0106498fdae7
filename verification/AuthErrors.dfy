/** Why a request was not authenticated. */
module AuthErrors {

  datatype AuthError =
    | Unauthenticated | InvalidCredentials | InvalidToken | MalformedToken | TokenExpired | ExpiredCredentials
    | ApiKeyNotFound | ApiKeyDisabled
    | Forbidden | ResourceNotFound | RateLimitExceeded
    | StorageError | External | Configuration | Internal
  {
    /** A credential was presented and refused; everything else is not counted. */
    predicate CredentialWasRejected() {
      || InvalidCredentials? || InvalidToken? || MalformedToken? || TokenExpired? || ExpiredCredentials?
      || ApiKeyNotFound? || ApiKeyDisabled?
    }
  }
}
