/** The token gate every non-auth call passes through (AuthInterceptor).
    Token validation is the function the gate is given; the handler is
    called exactly when the verdict is Forward, with that verdict's context. */
module AuthMiddleware {
  import opened Wrappers
  import opened Domain
  import opened Rpc
  import Strings

  datatype Verdict = Forward(ctx: Context) | Reject(status: Status)

  const AuthServiceName: string := "AuthService"
  const AuthorizationKey: string := "authorization"
  const BearerPrefix: string := "Bearer "

  /** The method belongs to the auth service itself. */
  ghost predicate IsAuthMethod(fullMethod: string)
  {
    exists i :: Strings.OccursAt(fullMethod, AuthServiceName, i)
  }

  /** The header has the shape `Bearer <token>` with no further space. */
  ghost predicate IsBearerHeader(header: string)
  {
    |header| >= |BearerPrefix| && header[..|BearerPrefix|] == BearerPrefix
      && ' ' !in header[|BearerPrefix|..]
  }

  /** Two pieces with "Bearer" first is the same as the Bearer shape. */
  lemma {:induction false} SplitBearer(header: string)
    ensures var parts := Strings.Split(header, ' ');
      (|parts| == 2 && parts[0] == "Bearer") <==> IsBearerHeader(header)
    ensures var parts := Strings.Split(header, ' ');
      |parts| == 2 && parts[0] == "Bearer" ==> parts[1] == header[|BearerPrefix|..]
  {
    var parts := Strings.Split(header, ' ');
    if IsBearerHeader(header) {
      Strings.SplitWithout(header[7..], ' ');
      assert header == "Bearer" + [' '] + header[7..];
      Strings.SplitAfterFirst("Bearer", header[7..], ' ');
    }
    if |parts| == 2 && parts[0] == "Bearer" {
      assert Strings.Join(parts[1..], ' ') == parts[1];
      assert header == "Bearer" + [' '] + parts[1];
      assert header[7..] == parts[1];
    }
  }

  /** Split the header on single spaces; accept exactly two pieces of
      which the first is "Bearer", and return the second. */
  function BearerToken(header: string): (token: Option<string>)
    ensures token.Some? <==> IsBearerHeader(header)
    ensures token.Some? ==> token.value == header[|BearerPrefix|..] && ' ' !in token.value
  {
    SplitBearer(header);
    var parts := Strings.Split(header, ' ');
    if |parts| != 2 || parts[0] != "Bearer" then None else Some(parts[1])
  }

  /** The values injected for downstream handlers. */
  function WithClaims(ctx: Context, claims: Claims): (out: Context)
    ensures out.metadata == ctx.metadata
    ensures out.values.Keys == ctx.values.Keys + {UserIdKey, EmailKey}
    ensures Value(out, UserIdKey) == Some(claims.userId) && Value(out, EmailKey) == Some(claims.email)
    ensures forall k :: k in ctx.values && k != UserIdKey && k != EmailKey ==> out.values[k] == ctx.values[k]
  {
    ctx.(values := ctx.values[UserIdKey := claims.userId][EmailKey := claims.email])
  }

  /** AuthInterceptor: bypass, metadata, header, shape, validation, in
      that order; the first failing check decides the rejection. */
  function Intercept(fullMethod: string, ctx: Context, validate: string -> Result<Claims, Error>): (v: Verdict)
    ensures IsAuthMethod(fullMethod) ==> v == Forward(ctx)
    ensures !IsAuthMethod(fullMethod) && ctx.metadata.None? ==>
      v == Reject(Status(Unauthenticated, "missing metadata"))
    ensures !IsAuthMethod(fullMethod) && ctx.metadata.Some? && Get(ctx.metadata.value, AuthorizationKey) == [] ==>
      v == Reject(Status(Unauthenticated, "missing authorization header"))
    ensures !IsAuthMethod(fullMethod) && ctx.metadata.Some? && Get(ctx.metadata.value, AuthorizationKey) != [] ==>
      var header := Get(ctx.metadata.value, AuthorizationKey)[0];
      if !IsBearerHeader(header) then
        v == Reject(Status(Unauthenticated, "invalid authorization header format"))
      else
        match validate(header[|BearerPrefix|..])
        case Failure(e) => v == Reject(Status(Unauthenticated, e.Message()))
        case Success(claims) => v == Forward(WithClaims(ctx, claims))
  {
    if Strings.Contains(fullMethod, AuthServiceName) then
      Forward(ctx)
    else if ctx.metadata.None? then
      Reject(Status(Unauthenticated, "missing metadata"))
    else
      var authHeader := Get(ctx.metadata.value, AuthorizationKey);
      if |authHeader| == 0 then
        Reject(Status(Unauthenticated, "missing authorization header"))
      else
        match BearerToken(authHeader[0])
        case None => Reject(Status(Unauthenticated, "invalid authorization header format"))
        case Some(token) =>
          match validate(token)
          case Failure(e) => Reject(Status(Unauthenticated, e.Message()))
          case Success(claims) => Forward(WithClaims(ctx, claims))
  }

  /** Calls to the auth service reach their handler with the original
      context, credentials or not. */
  lemma AuthServiceBypasses(ctx: Context, validate: string -> Result<Claims, Error>)
    ensures Intercept("/auth.AuthService/Login", ctx, validate) == Forward(ctx)
  {
    assert Strings.OccursAt("/auth.AuthService/Login", AuthServiceName, 6);
  }

  /** Headers the gate refuses: wrong case, no token part, two spaces. */
  lemma MalformedHeaders()
    ensures BearerToken("bearer x") == None
    ensures BearerToken("Bearer") == None
    ensures BearerToken("Bearer  x") == None
  {
    assert "bearer x"[0] != BearerPrefix[0];
    assert "Bearer  x"[7..][0] == ' ';
  }

  /** The token may be empty; it is whatever follows the one space. */
  lemma WellFormedHeaders()
    ensures BearerToken("Bearer ") == Some("")
    ensures BearerToken("Bearer abc") == Some("abc")
  {
    assert "Bearer "[..7] == BearerPrefix && "Bearer "[7..] == "";
    var h := "Bearer abc";
    assert h[..7] == BearerPrefix && h[7..] == "abc";
    assert ' ' !in "abc";
  }

  /** Only the first authorization value is read: values after it never
      change whether the call is rejected, with which status, or which
      values the handler's context carries. */
  lemma {:induction false} OnlyFirstHeaderCounts(fullMethod: string, ctx: Context, extra: seq<string>, validate: string -> Result<Claims, Error>)
    requires ctx.metadata.Some? && Get(ctx.metadata.value, AuthorizationKey) != []
    ensures var md := ctx.metadata.value;
      var other := ctx.(metadata := Some(md[AuthorizationKey := [Get(md, AuthorizationKey)[0]] + extra]));
      var a, b := Intercept(fullMethod, other, validate), Intercept(fullMethod, ctx, validate);
      a.Reject? == b.Reject? && (a.Reject? ==> a.status == b.status) && (a.Forward? ==> a.ctx.values == b.ctx.values)
  {
    var md := ctx.metadata.value;
    var first := Get(md, AuthorizationKey)[0];
    var other := ctx.(metadata := Some(md[AuthorizationKey := [first] + extra]));
    assert Get(other.metadata.value, AuthorizationKey)[0] == first;
  }
}
