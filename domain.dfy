/** The records the services pass around (the `domain` packages) and the
    errors the core returns, each with the text of its Go message (the
    driver's duplicate-key text is shortened to its code). */
module Domain {
  import opened Wrappers

  /** One byte of a Go string; passwords are measured and scanned as bytes. */
  newtype byte = x: int | 0 <= x < 256

  /** A document of the users collection. Times are integers on one clock;
      `deletedAt` is the soft-delete marker, None while the user is live.
      `password` holds the bcrypt hash in storage and is "" once cleared. */
  datatype User = User(
    id: string,
    email: string,
    password: string,
    name: string,
    createdAt: int,
    updatedAt: int,
    deletedAt: Option<int>)

  /** The identity claims a session token carries. */
  datatype Claims = Claims(userId: string, email: string)

  /** A document of the tokenRevoke collection. */
  datatype Revocation = Revocation(token: string, userId: string, revokedAt: int)

  /** A document of the loginAttempts collection (keyed by email). */
  datatype LoginAttempt = LoginAttempt(attempts: nat, lastTry: int)

  /** Every error the core produces. Collaborator errors (store, bcrypt, the
      token package) carry the collaborator's own text. */
  datatype Error =
    | InvalidEmailFormat
    | PasswordTooShort
    | PasswordMissingClass
    | UserAlreadyExists
    | TooManyAttempts
    | InvalidCredentials
    | InvalidToken
    | TokenRevoked
    | UserNotFound
    | DuplicateKey
    | StoreError(reason: string)
    | HashError(reason: string)
    | TokenError(reason: string)
  {
    /** The text `err.Error()` yields. The duplicate-key text is the
        leading part of the driver's write exception, which goes on to name
        the collection, the index and the key. */
    function Message(): (text: string)
      ensures !HasReason() ==> text != ""
      ensures HasReason() ==> text == reason
    {
      match this
      case InvalidEmailFormat => "invalid email format"
      case PasswordTooShort => "password must be at least 8 characters long"
      case PasswordMissingClass =>
        "password must contain at least one uppercase letter, one lowercase letter, and one number"
      case UserAlreadyExists => "user already exists"
      case TooManyAttempts => "too many login attempts, please try again later"
      case InvalidCredentials => "invalid credentials"
      case InvalidToken => "invalid token"
      case TokenRevoked => "token has been revoked"
      case UserNotFound => "user not found"
      case DuplicateKey => "E11000 duplicate key error"
      case StoreError(reason) => reason
      case HashError(reason) => reason
      case TokenError(reason) => reason
    }

    /** The error passes on a collaborator's text. */
    predicate HasReason()
    {
      StoreError? || HashError? || TokenError?
    }
  }
}
