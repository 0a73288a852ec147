# Authentication core of a two-service gRPC backend, in Dafny

This project models the authentication and user-profile core of a Go backend
with two gRPC services. The auth service handles registration, login, logout
and token validation. The users service handles profile reads, updates,
deletes and listing. Every contract is proved by the Dafny verifier.

The model covers these parts:

- **Credential validators.** The email pattern is stated as a language: a
  local part, `@`, a domain, `.`, and a top-level label. A decision function
  is proved to accept exactly that language. The password rule is a method
  that scans with three flags, proved against a rule stated with existential
  character-class predicates.
- **Login rate limiter.** A class with a `map<string, Entry>` field. `Allow`
  is the per-key state machine: open a window, replace an expired entry, deny
  at the cap, or count. `Sweep` is the body of the cleanup goroutine. Both are
  tied to the pure `Admit` and `Swept` functions. The lemmas prove the
  window boundary, the bounds invariant, the burst of exactly `maxAttempts`
  admitted calls, and that sweeping never changes a later verdict.
- **Bearer gate.** `AuthInterceptor` is a pure function from the method name,
  the request context and a token validator to a verdict: forward with a
  context, or reject with a status. `strings.Split` is modelled with its
  round trip through `Join`. The `Bearer <token>` check is proved equal to
  "prefix `Bearer ` and no further space".
- **Auth repository and usecase.** The repository is a class over the two
  durable collections: the append-only revocation log and the login-attempt
  table. It is handed to the usecase, as the user directory is. Every usecase
  built over one repository sees the others' writes, as the two services do
  over one database. The usecase is a class over the directory, the
  repository and the limiter. bcrypt and the token package are
  function-valued fields the usecase is built with.
- **User directory.** A class over the documents of the users collection,
  with the unique email index as its invariant. The listing's filters and
  sort order are the database's answer. The skip and limit paging over that
  answer is modelled.
- **Users usecase and handler.** A class over the same directory, and a
  handler class that picks which id a call acts on, checks ownership, and
  maps results to responses and status codes.

The clock is an explicit integer `now`. A failure of a durable store is an
explicit argument wherever the code treats that failure in its own way:

- Register's email lookup fails: the error is ignored.
- Login's writes to the attempt table fail: the errors are ignored.
- The revocation lookup fails: the error is passed on.
- The revocation insert fails: the error is passed on.

The id that the MongoDB driver generates on insert is a parameter of
`Register`.

Login never resets the in-memory limiter entry. Successful logins therefore
count toward the cap just as failed ones do. With the configured cap of 5
(`internal/pkg/config/config.go:35`), a sixth login inside one window is
refused even when the correct password is given. `RateLimit.FiveThenDenied`
together with the `Login` contract states this behaviour.

## Model

| member | source | states |
|---|---|---|
| `Domain.Error.Message` | internal/auth/usecase/auth_usecase.go:49-127 | each error the core raises has a non-empty text, the one its `errors.New` gives (the texts at validator.go:12-38 and users_usecase.go:23-72 too); a collaborator's error passes on the collaborator's own text |
| `Strings.Contains` | internal/auth/delivery/middleware.go:18 | true exactly when the substring occurs at some position (the `strings.Contains` used for the bypass) |
| `Strings.Split` | internal/auth/delivery/middleware.go:34 | `strings.Split` on one separator character gives one more piece than there are separators, no piece contains the separator, and joining the pieces restores the input |
| `Strings.SplitAfterFirst` | internal/auth/delivery/middleware.go:34 | splitting `w + sep + t`, where `w` has no separator, gives `w` followed by the pieces of `t` |
| `Validator.MatchesEmailDecides` | internal/pkg/validator/validator.go:8 | the decision by first `@` and last `.` accepts exactly the pattern's language (both directions) |
| `Validator.ValidateEmail` | internal/pkg/validator/validator.go:10-15 | Pass exactly when the address is local + `@` + domain + `.` + a top-level label of at least 2 letters, over the stated character classes; otherwise the "invalid email format" error |
| `Validator.AcceptedEmailHasOneAt` | internal/pkg/validator/validator.go:8 | every accepted address contains exactly one `@` |
| `Validator.EmailExampleAccepted` | internal/pkg/validator/validator.go:8-15 | `user@example.com` is accepted |
| `Validator.EmailExamplesRejected` | internal/pkg/validator/validator.go:8-15 | `bad-email` (no `@`) and `a@b` (no dotted suffix) are rejected with the format error |
| `Validator.ValidatePassword` | internal/pkg/validator/validator.go:17-42 | below 8 bytes the length error, before any class check; from 8 bytes on, Pass exactly when the password has an ASCII uppercase letter, an ASCII lowercase letter and an ASCII digit, and otherwise the class error |
| `Validator.NeutralByteKeepsVerdict` | internal/pkg/validator/validator.go:26-35 | appending a byte outside the three classes to a password of at least 8 bytes leaves the verdict unchanged |
| `Validator.PasswordExamples` | internal/pkg/validator/validator.go:17-42 | `abc` is too short, `alllowercase1` lacks an uppercase letter, `Abcdefg1` passes |
| `RateLimit.RateLimiter.constructor` | internal/pkg/ratelimit/ratelimit.go:20-29 | a new limiter has no entries and keeps the cap and the window it was given; the window must be positive, since the cleanup ticker panics otherwise (line 55) |
| `RateLimit.RateLimiter.Allow` | internal/pkg/ratelimit/ratelimit.go:31-52 | the verdict and the key's new entry are those of `Admit` on the key's old entry; a denial changes nothing; no other key's entry changes; counts stay in bounds |
| `RateLimit.RateLimiter.Sweep` | internal/pkg/ratelimit/ratelimit.go:60-65 | afterwards the map holds exactly the old entries whose age is not greater than the window, unchanged |
| `RateLimit.FirstCallOpensWindow` | internal/pkg/ratelimit/ratelimit.go:38-43 | a key with no entry is let through and gets the entry {count 1, firstTime now} |
| `RateLimit.ExpiredEntryIsReplaced` | internal/pkg/ratelimit/ratelimit.go:38-43 | at an age strictly greater than the window the entry becomes {1, now} and the call is let through; at an age of exactly the window the entry keeps its start |
| `RateLimit.WithinWindow` | internal/pkg/ratelimit/ratelimit.go:46-51 | inside the window, at or above the cap the call is denied and the entry is unchanged; below it the count rises by exactly one, the start is kept, and the call is let through |
| `RateLimit.AdmitKeepsBounds` | internal/pkg/ratelimit/ratelimit.go:38-51 | every count `Allow` stores lies in 1..maxAttempts (1..1 when the cap is below 1) |
| `RateLimit.ReplayInsideWindow` | internal/pkg/ratelimit/ratelimit.go:46-51 | from an entry holding `count` calls, the i-th later call inside its window is let through exactly when `count + i < maxAttempts` |
| `RateLimit.BurstFromNothing` | internal/pkg/ratelimit/ratelimit.go:38-51 | from no entry, with all calls inside the first call's window, the i-th call is let through exactly when it is the first or `i < maxAttempts` |
| `RateLimit.FiveThenDenied` | internal/pkg/ratelimit/ratelimit.go:38-51 | with the configured cap of 5, six calls in one window give five admissions and one denial |
| `RateLimit.SweptKeepsLiveEntries` | internal/pkg/ratelimit/ratelimit.go:61-65 | a key survives the sweep exactly when its age is not greater than the window, and its entry is unchanged |
| `RateLimit.SweepIsUnobservable` | internal/pkg/ratelimit/ratelimit.go:38-65 | a sweep at any time up to `now` never changes what `Allow` decides at `now` |
| `AuthMiddleware.SplitBearer` | internal/auth/delivery/middleware.go:34-37 | two pieces with `Bearer` first happens exactly when the header is `Bearer ` followed by text without a space, and the second piece is that text |
| `AuthMiddleware.BearerToken` | internal/auth/delivery/middleware.go:34-39 | a token is extracted exactly when the header has the `Bearer <token>` shape with one space; the token is the text after that space and holds no space |
| `AuthMiddleware.Intercept` | internal/auth/delivery/middleware.go:15-53 | an auth-service method is forwarded with the original context; otherwise, in this order: no metadata, no authorization value, a malformed first value, and a failed validation each reject as Unauthenticated with their own message; success forwards the context with `userID` and `email` from the claims |
| `AuthMiddleware.AuthServiceBypasses` | internal/auth/delivery/middleware.go:18-20 | a call to `/auth.AuthService/Login` is forwarded with its own context, whatever it carries |
| `AuthMiddleware.MalformedHeaders` | internal/auth/delivery/middleware.go:34-37 | `bearer x`, `Bearer` and `Bearer  x` carry no token |
| `AuthMiddleware.WellFormedHeaders` | internal/auth/delivery/middleware.go:34-39 | `Bearer ` carries the empty token and `Bearer abc` carries `abc` |
| `AuthMiddleware.OnlyFirstHeaderCounts` | internal/auth/delivery/middleware.go:28-34 | values after the first authorization value never change whether a call is rejected, with which status, or which values the handler receives |
| `AuthMiddleware.WithClaims` | internal/auth/delivery/middleware.go:48-49 | the handler's context keeps the metadata and every other value, and gains `userID` and `email` set to the claims' user id and email |
| `Bson.DeletedAtField` | internal/users/repository/users_repository.go:74 | the corrected encoding of the soft-delete marker: absent (null for the filter) exactly while the user is live, the deletion time once set |
| `Bson.NilFilterMatchesLive` | internal/users/repository/users_repository.go:74 | with the corrected encoding, the `deleted_at: nil` filter matches exactly the users without a deletion marker |
| `Bson.DeletedAtAsWritten` | internal/users/domain/users.go:14 | the encoding as written: a `time.Time` without `omitempty`, always a date, the zero date while the user is live |
| `Bson.NilFilterMatchesNothingAsWritten` | internal/users/repository/users_repository.go:74 | with the encoding as written, the `deleted_at: nil` filter matches no stored user, live or deleted |
| `UserStore.Directory.constructor` | internal/users/repository/users_repository.go:20-43 | the directory holds the documents already in the collection, which the unique email index keeps free of duplicate emails |
| `UserStore.Directory.FindByID` | internal/users/repository/users_repository.go:64-81 | a user is found exactly when a document has that id and no deletion mark; it is that document |
| `UserStore.Directory.LiveByEmail` | internal/users/repository/users_repository.go:83-94 | the live user with the email, present exactly when one exists |
| `UserStore.Directory.FindByEmail` | internal/users/repository/users_repository.go:83-94 | the answer is the live user with the email, or none when there is none |
| `UserStore.Directory.Create` | internal/users/repository/users_repository.go:45-62 | the insert succeeds exactly when neither the generated id nor the email is already in a document, including soft-deleted ones (unique index, lines 26-31); the stored user carries the id and both timestamps; a failure changes nothing |
| `UserStore.Directory.Update` | internal/users/repository/users_repository.go:96-117 | only the name and the update time of the document with the user's id are written |
| `UserStore.Directory.SoftDelete` | internal/users/repository/users_repository.go:119-136 | only the deletion mark of the document with that id is set |
| `UserStore.Page` | internal/users/repository/users_repository.go:170-176 | the page is the run of matching documents that starts after the first `skip`; it holds at most the absolute value of the limit and is cut short only by the end of the matches; a limit of 0 takes all the rest |
| `UserStore.ConsecutivePages` | internal/users/repository/users_repository.go:170-176 | pages `p` and `p + 1` of one size, one after the other, are page `p` at twice the size: paging neither skips nor repeats a document |
| `UserStore.Directory.List` | internal/users/repository/users_repository.go:151-199 | a failed count or find is passed on; a negative skip is refused; otherwise the total is the number of matching documents and the users are the page at skip `(page - 1) * limit` |
| `AuthStore.Recorded` | internal/auth/repository/auth_repository.go:60-74 | the upsert leaves every other email's record alone, adds one to the email's count (from 0 when it had no record), and stamps the attempt time |
| `AuthStore.RevokedStaysRevoked` | internal/auth/repository/auth_repository.go:28-58 | adding revocation records never makes a revoked token valid again |
| `AuthStore.ResetForgetsAttempts` | internal/auth/repository/auth_repository.go:60-96 | after a record and a reset, the email has no record, whatever it had before, and every other record is as before |
| `AuthStore.AuthRepository.constructor` | internal/auth/repository/auth_repository.go:20-26 | the repository holds whatever revocation and attempt records the database already has |
| `AuthStore.AuthRepository.RevokeToken` | internal/auth/repository/auth_repository.go:28-40 | a failed insert is passed on and adds nothing; otherwise exactly one record (token, user id, now) is appended and the token then counts as revoked; attempts are untouched |
| `AuthStore.AuthRepository.IsTokenRevoked` | internal/auth/repository/auth_repository.go:42-58 | a failed lookup is passed on; otherwise the answer is true exactly when some record has the token |
| `AuthStore.AuthRepository.RecordLoginAttempt` | internal/auth/repository/auth_repository.go:60-74 | a failed upsert is passed on and changes nothing; otherwise the table is the recorded one; revocations are untouched |
| `AuthStore.AuthRepository.ResetLoginAttempts` | internal/auth/repository/auth_repository.go:90-96 | a failed delete is passed on and changes nothing; otherwise exactly the email's record is removed |
| `Auth.AuthUsecase.constructor` | internal/auth/usecase/auth_usecase.go:24-33 | the usecase keeps its collaborators, among them a repository that may already hold records and may be shared with other usecases |
| `Auth.AuthUsecase.Register` | internal/auth/usecase/auth_usecase.go:35-72 | email check, then password check, then the duplicate check, each failure returned first; a failed lookup is ignored; on success the stored user holds the password hash and the returned user an empty password; no failure changes the directory |
| `Auth.AuthUsecase.Login` | internal/auth/usecase/auth_usecase.go:74-106 | a limiter denial returns "too many login attempts" before any attempt is recorded or any user looked up; otherwise the attempt is recorded (a failed write is ignored); an unknown email and a wrong password give the same "invalid credentials"; only success deletes the attempt record; the limiter entry moves as `Allow` does and is never reset |
| `Auth.AuthUsecase.Logout` | internal/auth/usecase/auth_usecase.go:108-117 | an unverifiable token gives "invalid token" and no record; a verified one appends (token, claims' user id) without consulting the log; the log only grows; after success the token is refused as revoked at every later time |
| `Auth.AuthUsecase.ValidateToken` | internal/auth/usecase/auth_usecase.go:119-132 | a lookup error is passed on; a revoked token gives "token has been revoked" whatever the token package says; otherwise success exactly when the token package accepts, with its claims, and its error passed on unchanged when it refuses |
| `Auth.RevocationIsShared` | cmd/users/main.go:38-60 | a token revoked through one usecase is refused as revoked by every usecase over the same repository, so the users service's gate refuses what the auth service's Logout revoked |
| `Auth.GateRefusesRevokedToken` | internal/auth/usecase/auth_usecase.go:121-128 | with the usecase as the gate's validator, a revoked token presented as `Bearer <token>` to a non-auth method is rejected as Unauthenticated "token has been revoked" |
| `Users.ClampPage` | internal/users/usecase/users_usecase.go:79-81 | the page asked of the store is at least 1; a page of 1 or more is kept, any other becomes 1 |
| `Users.ClampLimit` | internal/users/usecase/users_usecase.go:83-85 | the size asked of the store lies in 1..100; an in-range size is kept, any other becomes 10 |
| `Users.UserUsecase.constructor` | internal/users/usecase/users_usecase.go:14-18 | the usecase works on the directory it is given |
| `Users.UserUsecase.GetProfile` | internal/users/usecase/users_usecase.go:20-29 | success exactly for a live user, returned with an empty password; otherwise "user not found" |
| `Users.UserUsecase.UpdateProfile` | internal/users/usecase/users_usecase.go:31-66 | a missing user gives "user not found" and no write; otherwise an empty name keeps the stored name, a non-empty one replaces it, the email never changes, and the returned user has an empty password |
| `Users.UserUsecase.DeleteProfile` | internal/users/usecase/users_usecase.go:68-76 | a missing user gives "user not found" and no write; otherwise exactly that user is soft-deleted |
| `Users.UserUsecase.ListUsers` | internal/users/usecase/users_usecase.go:78-98 | the store is asked with the clamped page and size; its error is passed on; otherwise every user it returns comes back in the same order with an empty password, with the same total |
| `Rpc.WrapInt32` | internal/users/delivery/handler.go:49 | Go's `int32(x)`: agrees with `x` modulo 2^32 and equals `x` when `x` fits |
| `UserDelivery.ProfileTarget` | internal/users/delivery/handler.go:57-64 | the requested id when non-empty, else the context's `userID`, else InvalidArgument "user ID required"; no ownership check |
| `UserDelivery.OwnTarget` | internal/users/delivery/handler.go:84-92 | no context `userID` gives Unauthenticated; a non-empty requested id different from it gives PermissionDenied; otherwise the target is always the context's `userID` |
| `UserDelivery.UserHandler.constructor` | internal/users/delivery/handler.go:18-22 | the handler calls the usecase it is given |
| `UserDelivery.UserHandler.ListUsers` | internal/users/delivery/handler.go:24-53 | one response user per usecase user, in the same order; the request's page and limit are echoed unclamped; the total is narrowed to 32 bits; a store error becomes Internal |
| `UserDelivery.UserHandler.GetProfile` | internal/users/delivery/handler.go:55-80 | the resolved id is looked up as is; a live user is returned, anything else is NotFound "user not found" |
| `UserDelivery.UserHandler.UpdateProfile` | internal/users/delivery/handler.go:82-110 | a refused target returns its status and writes nothing; otherwise only the caller's own profile is updated, and a missing user is InvalidArgument |
| `UserDelivery.UserHandler.DeleteProfile` | internal/users/delivery/handler.go:112-133 | a refused target returns its status and writes nothing; otherwise only the caller's own profile is soft-deleted, and a missing user is Internal |

## Left out

- Concurrency: the limiter's mutex, the cleanup goroutine and its ticker are
  left out. Every call is atomic in the model. `Sweep` is an ordinary method
  that some caller runs at a time of its choosing.
- RateLimit.RateLimiter.constructor: requires a positive window, because the
  ticker of the cleanup goroutine (`ratelimit.go:55`) panics on any other.
  The configuration drops the parse error of `RATE_LIMIT_WINDOW`
  (`config.go:27`), so an unset variable gives a window of 0 and that panic.
  The configuration itself is not in this model.
- Time: `time.Now()` is the argument `now`, one integer clock. The saturation
  of `time.Sub` at the limits of `int64` is not modelled.
- bcrypt: the model does not implement bcrypt. Hashing and comparison are
  functions the usecase is given, and no property of them is assumed. This
  includes bcrypt's own length limit, which surfaces only as the hash
  function's error.
- The token package: `internal/pkg/jwt` is not part of this model. Issuing
  and verifying tokens are functions the usecase is given. No round trip,
  expiry or signature property is claimed.
- MongoDB: each collection is an in-memory value in a class the usecases
  share. Time-outs and outages are modelled only at the calls listed above
  and in the auth repository. An outage of Create, Update or SoftDelete is
  not modelled; Create fails only on a duplicate key.
- UserStore.Directory.constructor: requires documents that already satisfy
  the unique email index. A collection on which `CreateMany` fails (its error
  is dropped at `users_repository.go:37`) is not modelled.
- Lookups: ids are compared as exact strings. `primitive.ObjectIDFromHex`
  also accepts upper-case hex, and FindByID hands back the lower-case form.
  So GetProfile with an upper-case spelling of an existing id finds the user
  in the Go code but gives "user not found" in the model. An id that is not
  24 hex digits is an absent key here; in the Go code it is the parse error,
  which the usecases turn into "user not found" as well.
- UserStore.Directory.List: the name and email regex filters and the sort
  order are the database's answer, a function the directory is given. So are
  the count and find errors. Documents that fail to decode and are skipped
  (`users_repository.go:187-189`) are not modelled. The server's error text
  for a negative skip is not reproduced.
- `GetLoginAttempts` and the hard `Delete` are not used by the core and are
  left out.
- UserDelivery.UserHandler.UpdateProfile: states which profile changes, and
  that no other changes, rather than the full new record.
  `Users.UserUsecase.UpdateProfile` states the full record.
- The auth service's gRPC handler (`internal/auth/delivery/handler.go`) only
  maps results to response messages, so it is left out. So is the protobuf
  time formatting in the users handler: timestamps stay integers.
- Configuration and bootstrap (`internal/pkg/config/config.go`,
  `cmd/auth/main.go`, `cmd/users/main.go`) are left out. Only the cap of 5
  is kept, as `RateLimit.DefaultMaxAttempts`.
- The password is a byte sequence, because Go's `len` counts bytes. The Go
  loop ranges over runes, but a rune that is not ASCII is never classified.
  Scanning the bytes therefore sets the same three flags.
- The email is a `seq<char>` matched on characters, as the regexp engine
  matches runes. The engine itself is not modelled.

## Findings

| source | as written | input that shows it | evidently intended | confidence | as-written member | corrected member |
|---|---|---|---|---|---|---|
| internal/users/domain/users.go:14 | `DeletedAt` is a `time.Time` without `omitempty`, so a new user is stored with the zero date in `deleted_at`. The lookups and the listing filter on `deleted_at: nil` (users_repository.go:74, 88, 155), which matches only a null or missing field. | Register `user@example.com`, then log in with the same password: FindByEmail matches no document, so Login answers "invalid credentials"; GetProfile of the new id answers "user not found" | a live user has no deletion marker, so the nil filter finds every user not yet soft-deleted | high; not executed | `Bson.NilFilterMatchesNothingAsWritten` | `Bson.NilFilterMatchesLive` (on `Bson.DeletedAtField`, which `UserStore.Directory.IsLive` uses) |
