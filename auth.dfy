/** AuthUsecase: registration, login, logout and token validation over the
    user directory, the in-memory limiter, and the auth repository with its
    two durable collections (revoked tokens, login attempts). bcrypt and the
    token package are the functions the usecase is built with. */
module Auth {
  import opened Wrappers
  import opened Domain
  import opened Rpc
  import Validator
  import RateLimit
  import UserStore
  import AuthStore
  import AuthMiddleware

  class AuthUsecase {
    const directory: UserStore.Directory
    const repo: AuthStore.AuthRepository
    const limiter: RateLimit.RateLimiter
    /** bcrypt.GenerateFromPassword at the default cost. */
    const hash: seq<byte> -> Result<string, string>
    /** bcrypt.CompareHashAndPassword(stored, given) returns nil. */
    const matches: (string, seq<byte>) -> bool
    /** jwt.GenerateToken(id, email, secret, expiry) at time `now`. */
    const issue: (string, string, int) -> Result<string, string>
    /** jwt.ValidateToken(token, secret) at time `now`. */
    const verify: (string, int) -> Result<Claims, string>

    ghost predicate Valid()
      reads this, directory, limiter
    {
      directory.Valid() && limiter.Valid()
    }

    /** NewAuthUsecase; the repository may already hold records, and other
        usecases may share it. */
    constructor (directory: UserStore.Directory, repo: AuthStore.AuthRepository, limiter: RateLimit.RateLimiter,
                 hash: seq<byte> -> Result<string, string>, matches: (string, seq<byte>) -> bool,
                 issue: (string, string, int) -> Result<string, string>,
                 verify: (string, int) -> Result<Claims, string>)
      requires directory.Valid() && limiter.Valid()
      ensures Valid()
      ensures this.directory == directory && this.repo == repo && this.limiter == limiter
      ensures this.hash == hash && this.matches == matches && this.issue == issue && this.verify == verify
    {
      this.directory := directory;
      this.repo := repo;
      this.limiter := limiter;
      this.hash := hash;
      this.matches := matches;
      this.issue := issue;
      this.verify := verify;
    }

    /** Register. `newId` is the id the driver generates for the insert;
        `lookupFails` makes FindByEmail return an error, which is ignored. */
    method Register(email: string, password: seq<byte>, name: string, now: int, newId: string, lookupFails: bool)
      returns (r: Result<User, Error>)
      requires Valid()
      modifies directory
      ensures Valid()
      ensures !Validator.EmailLanguage(email) ==> r == Failure(InvalidEmailFormat)
      ensures Validator.EmailLanguage(email) && Validator.PasswordRule(password).Fail? ==>
        r == Failure(Validator.PasswordRule(password).error)
      ensures Validator.EmailLanguage(email) && Validator.PasswordRule(password) == Pass ==>
        if !lookupFails && old(directory.HasLiveEmail(email)) then r == Failure(UserAlreadyExists)
        else match hash(password)
          case Failure(e) => r == Failure(HashError(e))
          case Success(hashed) =>
            if newId in old(directory.users) || UserStore.EmailTaken(old(directory.users), email) then
              r == Failure(DuplicateKey)
            else
              && r == Success(User(newId, email, "", name, now, now, None))
              && directory.users == old(directory.users)[newId := User(newId, email, hashed, name, now, now, None)]
      ensures r.Failure? ==> directory.users == old(directory.users)
    {
      var emailCheck := Validator.ValidateEmail(email);
      if emailCheck.Fail? {
        return Failure(emailCheck.error);
      }
      var passwordCheck := Validator.ValidatePassword(password);
      if passwordCheck.Fail? {
        return Failure(passwordCheck.error);
      }
      var existing: Option<User> := None;
      if !lookupFails {
        existing := directory.FindByEmail(email);
      }
      if existing.Some? {
        return Failure(UserAlreadyExists);
      }
      var hashed := hash(password);
      if hashed.Failure? {
        return Failure(HashError(hashed.error));
      }
      var user := User("", email, hashed.value, name, 0, 0, None);
      var created := directory.Create(user, newId, now);
      if created.Failure? {
        return Failure(created.error);
      }
      user := created.value.(password := "");
      return Success(user);
    }

    /** Login. `recordFault` and `resetFault` are the errors of the two
        attempt-table writes, if they fail; both are ignored. */
    method Login(email: string, password: seq<byte>, now: int, recordFault: Option<string>, resetFault: Option<string>)
      returns (r: Result<string, Error>)
      requires Valid()
      modifies repo, limiter
      ensures Valid()
      ensures repo.revocations == old(repo.revocations)
      ensures var s := RateLimit.Admit(Lookup(old(limiter.attempts), email), now, limiter.maxAttempts, limiter.window);
        limiter.attempts == old(limiter.attempts)[email := s.entry]
      ensures var s := RateLimit.Admit(Lookup(old(limiter.attempts), email), now, limiter.maxAttempts, limiter.window);
        !s.allowed ==> r == Failure(TooManyAttempts) && repo.loginAttempts == old(repo.loginAttempts)
      ensures var s := RateLimit.Admit(Lookup(old(limiter.attempts), email), now, limiter.maxAttempts, limiter.window);
        s.allowed ==>
          var recorded := if recordFault.Some? then old(repo.loginAttempts)
                          else AuthStore.Recorded(old(repo.loginAttempts), email, now);
          match directory.LiveByEmail(email)
          case None => r == Failure(InvalidCredentials) && repo.loginAttempts == recorded
          case Some(user) =>
            if !matches(user.password, password) then
              r == Failure(InvalidCredentials) && repo.loginAttempts == recorded
            else match issue(user.id, user.email, now)
              case Failure(e) => r == Failure(TokenError(e)) && repo.loginAttempts == recorded
              case Success(token) =>
                r == Success(token) && repo.loginAttempts == (if resetFault.Some? then recorded else recorded - {email})
    {
      var allowed := limiter.Allow(email, now);
      if !allowed {
        return Failure(TooManyAttempts);
      }
      var _ := repo.RecordLoginAttempt(email, now, recordFault);
      var user := directory.FindByEmail(email);
      if user.None? {
        return Failure(InvalidCredentials);
      }
      if !matches(user.value.password, password) {
        return Failure(InvalidCredentials);
      }
      var token := issue(user.value.id, user.value.email, now);
      if token.Failure? {
        return Failure(TokenError(token.error));
      }
      var _ := repo.ResetLoginAttempts(email, resetFault);
      return Success(token.value);
    }

    /** Logout: verify the token, then insert a revocation record for it.
        `revokeFault` is the insert's error, if it fails. */
    method Logout(token: string, now: int, revokeFault: Option<string>) returns (r: Outcome<Error>)
      modifies repo
      ensures repo.loginAttempts == old(repo.loginAttempts)
      ensures old(repo.revocations) <= repo.revocations
      ensures match verify(token, now)
        case Failure(_) => r == Fail(InvalidToken) && repo.revocations == old(repo.revocations)
        case Success(claims) =>
          if revokeFault.Some? then
            r == Fail(StoreError(revokeFault.value)) && repo.revocations == old(repo.revocations)
          else
            r == Pass && repo.revocations == old(repo.revocations) + [Revocation(token, claims.userId, now)]
      ensures r == Pass ==> forall later :: ValidateToken(token, later, None) == Failure(TokenRevoked)
    {
      var claims := verify(token, now);
      if claims.Failure? {
        return Fail(InvalidToken);
      }
      r := repo.RevokeToken(token, claims.value.userId, now, revokeFault);
    }

    /** ValidateToken: the revocation lookup comes first, so a revoked
        token is refused whatever its signature; `storeFault` is the
        lookup's error, which is passed on, as is the token package's. */
    function ValidateToken(token: string, now: int, storeFault: Option<string>): (r: Result<Claims, Error>)
      reads this, repo
      ensures storeFault.Some? ==> r == Failure(StoreError(storeFault.value))
      ensures storeFault.None? && AuthStore.IsRevoked(repo.revocations, token) ==> r == Failure(TokenRevoked)
      ensures r.Success? <==> storeFault.None? && !AuthStore.IsRevoked(repo.revocations, token) && verify(token, now).Success?
      ensures r.Success? ==> Success(r.value) == verify(token, now)
      ensures storeFault.None? && !AuthStore.IsRevoked(repo.revocations, token) && verify(token, now).Failure? ==>
        r == Failure(TokenError(verify(token, now).error))
    {
      match repo.IsTokenRevoked(token, storeFault)
      case Failure(e) => Failure(e)
      case Success(revoked) =>
        if revoked then Failure(TokenRevoked)
        else
          match verify(token, now)
          case Failure(e) => Failure(TokenError(e))
          case Success(claims) => Success(claims)
    }
  }

  /** A revocation written through one usecase is seen by every usecase
      over the same repository, such as the other service's gate. */
  lemma RevocationIsShared(u: AuthUsecase, v: AuthUsecase, token: string, now: int)
    requires u.repo == v.repo
    requires AuthStore.IsRevoked(u.repo.revocations, token)
    ensures v.ValidateToken(token, now, None) == Failure(TokenRevoked)
  {
  }

  /** With the usecase as the gate's validator, a logged-out token sent as
      `Bearer <token>` to any non-auth method is refused as revoked, even
      when the token package would still accept it. */
  lemma GateRefusesRevokedToken(u: AuthUsecase, fullMethod: string, ctx: Context, token: string, now: int,
                                validate: string -> Result<Claims, Error>)
    requires forall t :: validate(t) == u.ValidateToken(t, now, None)
    requires !AuthMiddleware.IsAuthMethod(fullMethod)
    requires ctx.metadata.Some? && Get(ctx.metadata.value, AuthMiddleware.AuthorizationKey) != []
    requires Get(ctx.metadata.value, AuthMiddleware.AuthorizationKey)[0] == AuthMiddleware.BearerPrefix + token
    requires ' ' !in token
    requires AuthStore.IsRevoked(u.repo.revocations, token)
    ensures AuthMiddleware.Intercept(fullMethod, ctx, validate) == AuthMiddleware.Reject(Status(Unauthenticated, "token has been revoked"))
  {
    var header := AuthMiddleware.BearerPrefix + token;
    assert header[..7] == AuthMiddleware.BearerPrefix && header[7..] == token;
    assert validate(token) == Failure(TokenRevoked);
  }
}
