/** The administrator sign-in endpoint: the configuration gate comes first, then the
    submitted email (trimmed, compared case-insensitively) and password (compared against
    the configured bcrypt hash) decide; a successful sign-in sets an eight-hour session
    cookie for the administrator. */
module LoginRoute {
  import opened Wrappers
  import opened Strings
  import opened ProcessEnv
  import opened Auth

  /** The two fields the endpoint reads from the JSON body; anything but a string is
      `NotStr`. A body that cannot be parsed, or whose fields cannot be read, is the
      `Failure` carrying the error's message. */
  datatype LoginBody = LoginBody(email: Claim, password: Claim)

  /** `bcrypt.compare(password, hash)`. */
  type PasswordCompare = (string, string) -> bool

  datatype Cookie = Cookie(
    name: string, value: string, httpOnly: bool, sameSite: string,
    secure: bool, path: string, maxAge: int)

  datatype LoginResponse =
    | Misconfigured
    | InvalidCredentials
    | LoggedIn(cookie: Cookie)
    | BadRequest(error: string)

  function StatusCode(r: LoginResponse): (code: int)
    ensures code == 200 <==> r.LoggedIn?
    ensures code == 401 <==> r.InvalidCredentials?
    ensures code == 500 <==> r.Misconfigured?
    ensures code == 400 <==> r.BadRequest?
  {
    match r
    case Misconfigured => 500
    case InvalidCredentials => 401
    case LoggedIn(_) => 200
    case BadRequest(_) => 400
  }

  /** Eight hours, in seconds. */
  const SessionMaxAge := 60 * 60 * 8

  /** The submitted email as compared: trimmed when it is a string, "" otherwise. */
  function SubmittedEmail(c: Claim): string {
    match c
    case Str(s) => Trim(s)
    case NotStr => ""
  }

  /** The submitted password as compared: as it is when it is a string, "" otherwise. */
  function SubmittedPassword(c: Claim): string {
    match c
    case Str(s) => s
    case NotStr => ""
  }

  /** The configured administrator email, trimmed. */
  function AdminEmail(env: Env): string {
    Trim(RawEnv(env, "ADMIN_EMAIL"))
  }

  predicate EmailMatches(env: Env, c: Claim) {
    Lower(SubmittedEmail(c)) == Lower(AdminEmail(env))
  }

  /** The message of the 400 response: the error's own message only in development. */
  function ErrorText(env: Env, message: string): (e: string)
    ensures Get(env, "NODE_ENV") == Some("development") ==> e == message
    ensures Get(env, "NODE_ENV") != Some("development") ==> e == "Bad request"
  {
    if Get(env, "NODE_ENV") == Some("development") then message else "Bad request"
  }

  /** The session cookie carrying `token`; `secure` only in production. */
  function SessionCookie(env: Env, token: string): (c: Cookie)
    ensures c.name == "session" && c.value == token && c.httpOnly && c.sameSite == "lax" && c.path == "/"
    ensures c.maxAge == 28800
    ensures c.secure <==> "NODE_ENV" in env && env["NODE_ENV"] == "production"
  {
    Cookie(CookieName, token, true, "lax", Get(env, "NODE_ENV") == Some("production"), "/", SessionMaxAge)
  }

  /** `POST /api/admin/login`. */
  function Login(body: Result<LoginBody, string>, env: Env, decode: Base64Decoder,
                 compare: PasswordCompare, sign: Signer): (r: LoginResponse)
    ensures body.Failure? ==> r == BadRequest(ErrorText(env, body.error))
    ensures r == Misconfigured <==> body.Success? && ValidateAuthConfig(env, decode) != ConfigOk
    ensures r == InvalidCredentials <==>
      (body.Success? && ValidateAuthConfig(env, decode) == ConfigOk
       && !(EmailMatches(env, body.value.email)
            && compare(SubmittedPassword(body.value.password), AdminPasswordHash(env, decode))))
    ensures r.LoggedIn? ==> (body.Success? && ValidateAuthConfig(env, decode) == ConfigOk
      && EmailMatches(env, body.value.email)
      && compare(SubmittedPassword(body.value.password), AdminPasswordHash(env, decode))
      && SignSession(env, sign, SessionUser(AdminEmail(env), Admin)) == Some(r.cookie.value)
      && r.cookie == SessionCookie(env, r.cookie.value))
  {
    match body
    case Failure(message) => BadRequest(ErrorText(env, message))
    case Success(b) =>
      var email := SubmittedEmail(b.email);
      var password := SubmittedPassword(b.password);
      if ValidateAuthConfig(env, decode) != ConfigOk then Misconfigured
      else
        var adminEmail := AdminEmail(env);
        var adminHash := AdminPasswordHash(env, decode);
        var emailMatches := Lower(email) == Lower(adminEmail);
        var passMatches := compare(password, adminHash);
        if !emailMatches || !passMatches then InvalidCredentials
        else
          match SignSession(env, sign, SessionUser(adminEmail, Admin))
          case None => BadRequest(ErrorText(env, "AUTH_SECRET is not set"))
          case Some(token) => LoggedIn(SessionCookie(env, token))
  }

  /** Under a valid configuration signing cannot fail, so a well-formed body with the right
      credentials always signs in: the only 400 is a body that could not be read. */
  lemma ConfiguredLoginSucceeds(body: Result<LoginBody, string>, env: Env, decode: Base64Decoder,
                                compare: PasswordCompare, sign: Signer)
    requires body.Success? && ValidateAuthConfig(env, decode) == ConfigOk
    requires EmailMatches(env, body.value.email)
    requires compare(SubmittedPassword(body.value.password), AdminPasswordHash(env, decode))
    ensures Login(body, env, decode, compare, sign).LoggedIn?
  {
    ValidConfigHasSecret(env, decode);
  }

  /** A misconfigured server refuses every sign-in before any password is compared: the
      outcome does not depend on the comparison at all. */
  lemma ConfigGateComesFirst(body: LoginBody, env: Env, decode: Base64Decoder,
                             compare1: PasswordCompare, compare2: PasswordCompare,
                             sign: Signer)
    requires ValidateAuthConfig(env, decode) != ConfigOk
    ensures Login(Success(body), env, decode, compare1, sign) == Misconfigured
    ensures Login(Success(body), env, decode, compare1, sign)
         == Login(Success(body), env, decode, compare2, sign)
  {
  }

  /** The cookie a sign-in sets is the `session` cookie, HTTP-only, lax, on `/`, for eight
      hours, secure exactly in production; its token reads back as the administrator,
      provided the JWT library verifies what it signs. */
  lemma IssuedSessionIsAdmin(body: Result<LoginBody, string>, env: Env, decode: Base64Decoder,
                             compare: PasswordCompare, sign: Signer, verify: Verifier)
    requires Login(body, env, decode, compare, sign).LoggedIn?
    requires forall u: SessionUser, key: string ::
      verify(sign(u, key), key) == Some(VerifiedToken(Payload(Str(u.email), Str(RoleName(u.role))), "HS256"))
    ensures var c := Login(body, env, decode, compare, sign).cookie;
      && c.name == "session" && c.httpOnly && c.sameSite == "lax" && c.path == "/"
      && c.maxAge == 28800
      && (c.secure <==> Get(env, "NODE_ENV") == Some("production"))
      && VerifySession(env, verify, c.value) == Some(SessionUser(AdminEmail(env), Admin))
  {
    ValidConfigHasSecret(env, decode);
    SignThenVerify(env, sign, verify, SessionUser(AdminEmail(env), Admin));
  }

  /** Whitespace around the submitted email and the case of its ASCII letters do not
      matter: the administrator's address padded and written in any case matches. */
  lemma EmailPaddingAndCaseIgnored(env: Env, pre: string, u: string, post: string)
    requires AllSpace(pre) && AllSpace(post)
    requires u == [] || (!IsSpace(u[0]) && !IsSpace(u[|u| - 1]))
    requires Lower(u) == Lower(AdminEmail(env))
    ensures EmailMatches(env, Str(pre + u + post))
  {
    TrimPadded(pre, u, post);
  }

  /** An email that is not a string never matches: the configuration gate has already
      ensured the administrator email is not empty. */
  lemma NonStringEmailRefused(body: LoginBody, env: Env, decode: Base64Decoder,
                              compare: PasswordCompare, sign: Signer)
    requires body.email == NotStr
    ensures !Login(Success(body), env, decode, compare, sign).LoggedIn?
  {
    if ValidateAuthConfig(env, decode) == ConfigOk {
      assert |Lower(AdminEmail(env))| != |Lower("")|;
    }
  }
}
