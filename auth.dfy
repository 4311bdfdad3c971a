/** The session and configuration helpers of the admin side: role capabilities, the
    session check (with the JWT library left abstract), the session cookie parser, the
    two-strategy password hash retrieval and the ordered configuration check. */
module Auth {
  import opened Wrappers
  import opened Strings
  import opened ProcessEnv

  datatype Role = Admin | Analyst | Viewer

  function RoleName(r: Role): string {
    match r
    case Admin => "ADMIN"
    case Analyst => "ANALYST"
    case Viewer => "VIEWER"
  }

  datatype SessionUser = SessionUser(email: string, role: Role)

  /** A claim of a verified token: a JSON string, or any other JSON value (or none). */
  datatype Claim = Str(s: string) | NotStr

  datatype Payload = Payload(email: Claim, role: Claim)

  /** What the JWT library hands back for a token whose signature and expiry check out. */
  datatype VerifiedToken = VerifiedToken(payload: Payload, alg: string)

  /** `jwtVerify(token, secret)`: the verified token, or None where the library throws. */
  type Verifier = (string, string) -> Option<VerifiedToken>

  /** `new SignJWT(...).sign(secret)` for a user's email and role. */
  type Signer = (SessionUser, string) -> string

  /** `Buffer.from(s, "base64").toString("utf8")`: None where decoding throws. */
  type Base64Decoder = string -> Option<string>

  const CookieName := "session"

  /** `secretKey()`: AUTH_SECRET as it is, which must be set and non-empty. */
  function SecretKey(env: Env): (r: Option<string>)
    ensures r.Some? <==> "AUTH_SECRET" in env && env["AUTH_SECRET"] != ""
    ensures r.Some? ==> r.value == env["AUTH_SECRET"]
  {
    match Get(env, "AUTH_SECRET")
    case None => None
    case Some(s) => if s == "" then None else Some(s)
  }

  /** The role claim is accepted only as the name of a role. */
  function RoleFromClaim(c: Claim): (r: Option<Role>)
    ensures r.Some? <==> c.Str? && (c.s == "ADMIN" || c.s == "ANALYST" || c.s == "VIEWER")
    ensures r.Some? ==> RoleName(r.value) == c.s
  {
    if c == Str("ADMIN") then Some(Admin)
    else if c == Str("ANALYST") then Some(Analyst)
    else if c == Str("VIEWER") then Some(Viewer)
    else None
  }

  /** The payload shape check of `verifySession`: a string email and a known role. */
  function UserFromPayload(p: Payload): (r: Option<SessionUser>)
    ensures r.Some? <==> p.email.Str? && RoleFromClaim(p.role).Some?
    ensures r.Some? ==> p.email == Str(r.value.email) && p.role == Str(RoleName(r.value.role))
  {
    match (p.email, RoleFromClaim(p.role))
    case (Str(email), Some(role)) => Some(SessionUser(email, role))
    case _ => None
  }

  /** `verifySession`: every failure, an unset secret included, is an absent session
      rather than an exception. */
  function VerifySession(env: Env, verify: Verifier, token: string): (r: Option<SessionUser>)
    ensures SecretKey(env).None? ==> r.None?
    ensures r.Some? ==> (verify(token, SecretKey(env).value).Some?
      && UserFromPayload(verify(token, SecretKey(env).value).value.payload) == r)
    ensures SecretKey(env).Some? && verify(token, SecretKey(env).value).None? ==> r.None?
    ensures SecretKey(env).Some? && verify(token, SecretKey(env).value).Some?
      ==> r == UserFromPayload(verify(token, SecretKey(env).value).value.payload)
  {
    match SecretKey(env)
    case None => None
    case Some(key) =>
      match verify(token, key)
      case None => None
      case Some(verified) => UserFromPayload(verified.payload)
  }

  /** `signSession`: None where signing throws because the secret is unset. */
  function SignSession(env: Env, sign: Signer, user: SessionUser): (r: Option<string>)
    ensures r.Some? <==> SecretKey(env).Some?
  {
    match SecretKey(env)
    case None => None
    case Some(key) => Some(sign(user, key))
  }

  /** A session signed under the configured secret is read back as the same user,
      provided the JWT library verifies what it signs with the claims it was given. */
  lemma SignThenVerify(env: Env, sign: Signer, verify: Verifier, user: SessionUser)
    requires SecretKey(env).Some?
    requires forall u: SessionUser, key: string ::
      verify(sign(u, key), key) == Some(VerifiedToken(Payload(Str(u.email), Str(RoleName(u.role))), "HS256"))
    ensures SignSession(env, sign, user).Some?
    ensures VerifySession(env, verify, SignSession(env, sign, user).value) == Some(user)
  {
    var key := SecretKey(env).value;
    assert verify(sign(user, key), key) == Some(VerifiedToken(Payload(Str(user.email), Str(RoleName(user.role))), "HS256"));
  }

  /** `canMutate`: administrators and analysts may change enquiries, viewers may not. */
  function CanMutate(role: Role): (b: bool)
    ensures b <==> role != Viewer
  {
    role == Admin || role == Analyst
  }

  /** The destructuring `[name, ...valueParts] = piece.split("=")`: the rejoined value when
      the name is the session cookie's and there is at least one '='. */
  function SessionValueOf(piece: string): Option<string> {
    var parts := Split(piece, '=');
    if parts[0] == CookieName && |parts| > 1 then Some(Join(parts[1..], '=')) else None
  }

  /** A piece names the session exactly when it is "session=" followed by the value,
      whatever '=' the value itself contains. */
  lemma SessionValueOfSpec(piece: string, value: string)
    ensures SessionValueOf(piece) == Some(value) <==> piece == CookieName + "=" + value
  {
    var parts := Split(piece, '=');
    if SessionValueOf(piece) == Some(value) {
      SplitAtFirst(piece, '=');
    }
    if piece == CookieName + "=" + value {
      assert piece == CookieName + ['='] + value;
      SplitAfterHead(CookieName, '=', value);
      JoinSplit(value, '=');
    }
  }

  /** The pieces of a cookie header: split on ';', each trimmed. */
  function Pieces(header: string): (pieces: seq<string>)
    ensures |pieces| == |Split(header, ';')|
    ensures forall i :: 0 <= i < |pieces| ==> pieces[i] == Trim(Split(header, ';')[i])
  {
    var raw := Split(header, ';');
    seq(|raw|, i requires 0 <= i < |raw| => Trim(raw[i]))
  }

  /** The value of the first piece that names the session: that piece is "session=" plus
      the value, and no earlier piece names the session. */
  function FirstSessionValue(pieces: seq<string>): (r: Option<string>)
    ensures r.Some? ==> exists i :: (0 <= i < |pieces| && pieces[i] == CookieName + "=" + r.value
      && forall j :: 0 <= j < i ==> SessionValueOf(pieces[j]).None?)
    ensures r.None? <==> forall i :: 0 <= i < |pieces| ==> SessionValueOf(pieces[i]).None?
  {
    if pieces == [] then None
    else match SessionValueOf(pieces[0])
      case Some(v) =>
        SessionValueOfSpec(pieces[0], v);
        Some(v)
      case None =>
        var rest := FirstSessionValue(pieces[1..]);
        assert forall i :: 1 <= i < |pieces| ==> pieces[i] == pieces[1..][i - 1];
        rest
  }

  /** The session cookie's value in a `cookie` header, None when the header is absent or
      empty or no piece names the session. */
  function SessionCookieValue(header: Option<string>): (r: Option<string>)
    ensures header.None? || header.value == "" ==> r.None?
    ensures header.Some? && header.value != "" ==>
      (r.None? <==> forall i :: 0 <= i < |Pieces(header.value)| ==> SessionValueOf(Pieces(header.value)[i]).None?)
    ensures r.Some? ==> exists i :: (0 <= i < |Pieces(header.value)| && Pieces(header.value)[i] == CookieName + "=" + r.value
      && forall j :: 0 <= j < i ==> SessionValueOf(Pieces(header.value)[j]).None?)
  {
    if header.None? || header.value == "" then None else FirstSessionValue(Pieces(header.value))
  }

  /** `getSessionCookieValue`: scans the pieces in order and returns at the first one
      naming the session. */
  method GetSessionCookieValue(header: Option<string>) returns (r: Option<string>)
    ensures r == SessionCookieValue(header)
  {
    if header.None? || header.value == "" {
      return None;
    }
    var cookies := Pieces(header.value);
    var i := 0;
    while i < |cookies|
      invariant 0 <= i <= |cookies|
      invariant FirstSessionValue(cookies) == FirstSessionValue(cookies[i..])
    {
      var parts := Split(cookies[i], '=');
      if parts[0] == CookieName && |parts| > 1 {
        return Some(Join(parts[1..], '='));
      }
      assert cookies[i..][1..] == cookies[i + 1..];
      i := i + 1;
    }
    return None;
  }

  /** `getSessionFromRequest`: an absent or empty cookie value is no session. */
  function SessionFromRequest(env: Env, verify: Verifier, header: Option<string>): (r: Option<SessionUser>)
    ensures SessionCookieValue(header).None? || SessionCookieValue(header) == Some("") ==> r.None?
    ensures r.Some? ==> VerifySession(env, verify, SessionCookieValue(header).value) == r
    ensures SessionCookieValue(header).Some? && SessionCookieValue(header).value != ""
      ==> r == VerifySession(env, verify, SessionCookieValue(header).value)
  {
    match SessionCookieValue(header)
    case None => None
    case Some(token) => if token == "" then None else VerifySession(env, verify, token)
  }

  datatype SessionOutcome = Unauthorized | Authorized(session: SessionUser)

  /** `requireSession`: a 401 exactly when there is no session. */
  function RequireSession(env: Env, verify: Verifier, header: Option<string>): (r: SessionOutcome)
    ensures r.Unauthorized? <==> SessionFromRequest(env, verify, header).None?
    ensures r.Authorized? ==> SessionFromRequest(env, verify, header) == Some(r.session)
  {
    match SessionFromRequest(env, verify, header)
    case None => Unauthorized
    case Some(session) => Authorized(session)
  }

  /** The first piece naming the session decides: when it is "session=" with nothing
      after it, the request is refused whatever the JWT library would say. */
  lemma EmptySessionCookieRefused(env: Env, verify: Verifier, header: string, i: nat)
    requires i < |Pieces(header)| && Pieces(header)[i] == CookieName + "="
    requires forall j :: 0 <= j < i ==> SessionValueOf(Pieces(header)[j]).None?
    ensures SessionCookieValue(Some(header)) == Some("")
    ensures RequireSession(env, verify, Some(header)) == Unauthorized
  {
    var pieces := Pieces(header);
    assert CookieName + "=" == CookieName + "=" + "";
    SessionValueOfSpec(pieces[i], "");
    var r := FirstSessionValue(pieces);
    assert r.Some?;
    var k :| 0 <= k < |pieces| && pieces[k] == CookieName + "=" + r.value
      && forall j :: 0 <= j < k ==> SessionValueOf(pieces[j]).None?;
    SessionValueOfSpec(pieces[k], r.value);
    assert k == i;
    assert r.value == (CookieName + "=" + r.value)[|CookieName + "="|..];
  }

  /** `$2a$` or `$2b$`: the bcrypt prefixes the hash checks accept. */
  predicate IsBcryptPrefixed(h: string) {
    StartsWith(h, "$2a$") || StartsWith(h, "$2b$")
  }

  /** The base64 strategy: the trimmed decoding of the trimmed ADMIN_PASSWORD_HASH_B64,
      used only when that is non-empty, decodes and carries a bcrypt prefix. */
  function Base64Hash(env: Env, decode: Base64Decoder): (r: Option<string>)
    ensures r.Some? ==> IsBcryptPrefixed(r.value)
    ensures r.Some? <==> var b64 := Trim(RawEnv(env, "ADMIN_PASSWORD_HASH_B64"));
      b64 != "" && decode(b64).Some? && IsBcryptPrefixed(Trim(decode(b64).value))
    ensures r.Some? ==> r.value == Trim(decode(Trim(RawEnv(env, "ADMIN_PASSWORD_HASH_B64"))).value)
  {
    var b64 := Trim(RawEnv(env, "ADMIN_PASSWORD_HASH_B64"));
    if b64 == "" then None
    else match decode(b64)
      case None => None
      case Some(decoded) => if IsBcryptPrefixed(Trim(decoded)) then Some(Trim(decoded)) else None
  }

  /** One surrounding pair of matching quotes (both ' or both ") is removed; `slice(1, -1)`
      of a lone quote is the empty string. */
  function StripQuotes(raw: string): (r: string)
    ensures (StartsWith(raw, "'") && EndsWith(raw, "'")) || (StartsWith(raw, "\"") && EndsWith(raw, "\""))
      ==> r == (if |raw| >= 2 then raw[1..|raw| - 1] else "")
    ensures !((StartsWith(raw, "'") && EndsWith(raw, "'")) || (StartsWith(raw, "\"") && EndsWith(raw, "\"")))
      ==> r == raw
  {
    if (StartsWith(raw, "'") && EndsWith(raw, "'")) || (StartsWith(raw, "\"") && EndsWith(raw, "\"")) then
      if |raw| >= 2 then raw[1..|raw| - 1] else ""
    else raw
  }

  /** The legacy strategy on ADMIN_PASSWORD_HASH: trim, strip quotes, unescape "$$" to "$",
      trim again. */
  function LegacyHash(raw: string): (h: string)
    ensures Trim(h) == h
  {
    TrimIdempotent(ReplaceAll(StripQuotes(Trim(raw)), "$$", "$"));
    Trim(ReplaceAll(StripQuotes(Trim(raw)), "$$", "$"))
  }

  /** The hash `bcrypt.compare` uses: the base64 strategy first, the legacy one otherwise. */
  function AdminPasswordHash(env: Env, decode: Base64Decoder): (h: string)
    ensures Base64Hash(env, decode).Some? ==> h == Base64Hash(env, decode).value && IsBcryptPrefixed(h)
    ensures Base64Hash(env, decode).None? ==> h == LegacyHash(RawEnv(env, "ADMIN_PASSWORD_HASH"))
  {
    match Base64Hash(env, decode)
    case Some(h) => h
    case None => LegacyHash(RawEnv(env, "ADMIN_PASSWORD_HASH"))
  }

  /** `getAdminPasswordHash`, reassigning the legacy value step by step. */
  method GetAdminPasswordHash(env: Env, decode: Base64Decoder) returns (h: string)
    ensures h == AdminPasswordHash(env, decode)
  {
    var b64 := Trim(RawEnv(env, "ADMIN_PASSWORD_HASH_B64"));
    if b64 != "" {
      var decoded := decode(b64);
      if decoded.Some? {
        var d := Trim(decoded.value);
        if StartsWith(d, "$2a$") || StartsWith(d, "$2b$") {
          assert Base64Hash(env, decode) == Some(d);
          return d;
        }
      }
    }
    assert Base64Hash(env, decode).None?;
    var raw := Trim(RawEnv(env, "ADMIN_PASSWORD_HASH"));
    ghost var trimmed := raw;
    if (StartsWith(raw, "'") && EndsWith(raw, "'")) || (StartsWith(raw, "\"") && EndsWith(raw, "\"")) {
      raw := if |raw| >= 2 then raw[1..|raw| - 1] else "";
    }
    assert raw == StripQuotes(trimmed);
    raw := ReplaceAll(raw, "$$", "$");
    return Trim(raw);
  }

  /** Escapes a hash the way the legacy value expects it: every '$' written twice. */
  function DoubleDollars(s: string): (r: string)
    ensures |r| >= |s|
    ensures s != [] ==> r != [] && (s[0] == '$' ==> r[0] == '$') && (s[0] != '$' ==> r[0] == s[0])
  {
    if s == [] then []
    else (if s[0] == '$' then "$$" else [s[0]]) + DoubleDollars(s[1..])
  }

  /** Unescaping undoes the escaping: "$$" is read back as "$", left to right. */
  lemma {:induction false} UnescapeDoubled(s: string)
    ensures ReplaceAll(DoubleDollars(s), "$$", "$") == s
    decreases |s|
  {
    if s != [] {
      UnescapeDoubled(s[1..]);
      var rest := DoubleDollars(s[1..]);
      if s[0] == '$' {
        assert DoubleDollars(s) == "$$" + rest;
        assert ("$$" + rest)[..2] == "$$";
        assert ("$$" + rest)[2..] == rest;
      } else {
        assert DoubleDollars(s) == [s[0]] + rest;
        if |[s[0]] + rest| >= 2 {
          assert ([s[0]] + rest)[..2] != "$$";
        }
        assert ([s[0]] + rest)[1..] == rest;
      }
    }
  }

  /** The last character of an escaped string is the last of the original, or a '$'. */
  lemma {:induction false} DoubleDollarsLast(s: string)
    requires s != []
    ensures var r := DoubleDollars(s); r[|r| - 1] == s[|s| - 1]
    decreases |s|
  {
    if |s| > 1 {
      DoubleDollarsLast(s[1..]);
    }
  }

  /** A bcrypt-prefixed hash begins with '$'. */
  lemma BcryptPrefixedStartsWithDollar(h: string)
    requires IsBcryptPrefixed(h)
    ensures |h| >= 4 && h[0] == '$'
  {
    assert h[0] == h[..4][0];
  }

  /** An escaped bcrypt hash starts with '$' and ends as the hash does. */
  lemma EscapedHashEnds(h: string)
    requires IsBcryptPrefixed(h)
    ensures var e := DoubleDollars(h); e != [] && e[0] == '$' && e[|e| - 1] == h[|h| - 1]
  {
    assert h[0] == '$';
    DoubleDollarsLast(h);
  }

  /** Quoting a value that does not itself start with a quote is undone by `StripQuotes`. */
  lemma StripQuotesOfQuoted(quote: string, value: string)
    requires quote == "" || quote == "'" || quote == "\""
    requires value != [] && value[0] != '\'' && value[0] != '"'
    ensures StripQuotes(quote + value + quote) == value
  {
    var raw := quote + value + quote;
    if quote == "" {
      assert raw == value;
      assert !StartsWith(raw, "'") && !StartsWith(raw, "\"");
    } else {
      assert raw[..1] == quote && raw[|raw| - 1..] == quote;
      assert raw[1..|raw| - 1] == value;
    }
  }

  /** Quoting an escaped bcrypt hash leaves nothing for the first `trim` to remove. */
  lemma QuotedEscapedHashTrimmed(h: string, quote: string)
    requires IsBcryptPrefixed(h) && !IsSpace(h[|h| - 1])
    requires quote == "" || quote == "'" || quote == "\""
    ensures Trim(quote + DoubleDollars(h) + quote) == quote + DoubleDollars(h) + quote
  {
    var escaped := DoubleDollars(h);
    EscapedHashEnds(h);
    var raw := quote + escaped + quote;
    assert raw[0] == (if quote == "" then '$' else quote[0]);
    assert raw[|raw| - 1] == (if quote == "" then h[|h| - 1] else quote[0]);
    TrimOfTrimmed(raw);
  }

  /** A bcrypt hash put into ADMIN_PASSWORD_HASH with its dollars escaped, quoted or not,
      is read back as the hash itself. */
  lemma LegacyReadsEscapedHash(h: string, quote: string)
    requires IsBcryptPrefixed(h) && !IsSpace(h[|h| - 1])
    requires quote == "" || quote == "'" || quote == "\""
    ensures LegacyHash(quote + DoubleDollars(h) + quote) == h
  {
    var escaped := DoubleDollars(h);
    var raw := quote + escaped + quote;
    assert Trim(raw) == raw by { QuotedEscapedHashTrimmed(h, quote); }
    assert StripQuotes(raw) == escaped by {
      EscapedHashEnds(h);
      StripQuotesOfQuoted(quote, escaped);
    }
    assert ReplaceAll(escaped, "$$", "$") == h by { UnescapeDoubled(h); }
    assert Trim(h) == h by {
      BcryptPrefixedStartsWithDollar(h);
      TrimOfTrimmed(h);
    }
  }

  datatype ConfigCheck = ConfigOk | ConfigError(reason: string)

  const SecretReason := "AUTH_SECRET must exist and be at least 32 characters"
  const EmailReason := "ADMIN_EMAIL must exist"
  const HashMissingReason := "ADMIN_PASSWORD_HASH or ADMIN_PASSWORD_HASH_B64 must exist"
  const HashPrefixReason := "Password hash must start with $2a$ or $2b$ after decoding/parsing"
  const HashLengthReason := "Password hash must be at least 55 characters after decoding/parsing"

  /** `validateAuthConfig`: the checks run in a fixed order and the first failing one is
      reported; the configuration is ok when all of them pass. */
  function ValidateAuthConfig(env: Env, decode: Base64Decoder): (r: ConfigCheck)
    ensures var secret := Trim(RawEnv(env, "AUTH_SECRET"));
      var email := Trim(RawEnv(env, "ADMIN_EMAIL"));
      var h := AdminPasswordHash(env, decode);
      && (r == ConfigOk <==> |secret| >= 32 && email != "" && IsBcryptPrefixed(h) && |h| >= 55)
      && (r == ConfigError(SecretReason) <==> |secret| < 32)
      && (r == ConfigError(EmailReason) <==> |secret| >= 32 && email == "")
      && (r == ConfigError(HashMissingReason) <==> |secret| >= 32 && email != "" && h == "")
      && (r == ConfigError(HashPrefixReason) <==> |secret| >= 32 && email != "" && h != "" && !IsBcryptPrefixed(h))
      && (r == ConfigError(HashLengthReason) <==> |secret| >= 32 && email != "" && IsBcryptPrefixed(h) && |h| < 55)
  {
    var authSecret := Trim(RawEnv(env, "AUTH_SECRET"));
    var adminEmail := Trim(RawEnv(env, "ADMIN_EMAIL"));
    var adminHash := AdminPasswordHash(env, decode);
    if authSecret == "" || |authSecret| < 32 then ConfigError(SecretReason)
    else if adminEmail == "" then ConfigError(EmailReason)
    else if adminHash == "" then ConfigError(HashMissingReason)
    else if !StartsWith(adminHash, "$2a$") && !StartsWith(adminHash, "$2b$") then ConfigError(HashPrefixReason)
    else if |adminHash| < 55 then ConfigError(HashLengthReason)
    else ConfigOk
  }

  /** A valid configuration has a usable signing secret: AUTH_SECRET is set and non-empty. */
  lemma ValidConfigHasSecret(env: Env, decode: Base64Decoder)
    requires ValidateAuthConfig(env, decode) == ConfigOk
    ensures SecretKey(env).Some?
    ensures |SecretKey(env).value| >= 32
  {
    var raw := RawEnv(env, "AUTH_SECRET");
    assert |Trim(raw)| >= 32;
  }
}
