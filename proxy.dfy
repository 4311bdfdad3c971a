/** The edge gatekeeper in front of the admin pages and the enquiries API: public paths
    and the public enquiry submission pass, everything else needs a session token that
    verifies under a strong enough secret; unauthenticated API calls get a 401 and admin
    pages a redirect to the login page. */
module Proxy {
  import opened Wrappers
  import opened Strings
  import opened ProcessEnv
  import opened Auth

  datatype Request = Request(pathname: string, httpMethod: string, sessionCookie: Option<string>)

  /** What the gatekeeper does with a request. */
  datatype Decision = Pass | Unauthorized | RedirectToLogin(next: string)

  /** `getSecretKey` of the gatekeeper: AUTH_SECRET as it is, refused when it is missing or
      shorter than 32 characters. */
  function ProxySecret(env: Env): (r: Option<string>)
    ensures r.Some? <==> "AUTH_SECRET" in env && |env["AUTH_SECRET"]| >= 32
    ensures r.Some? ==> r.value == env["AUTH_SECRET"]
  {
    match Get(env, "AUTH_SECRET")
    case None => None
    case Some(secret) => if secret == "" || |secret| < 32 then None else Some(secret)
  }

  /** `verifyToken`: the token verifies under the secret with HS256 and its payload has a
      string email and a known role. */
  function VerifyToken(env: Env, verify: Verifier, token: string): (ok: bool)
    ensures ProxySecret(env).None? ==> !ok
    ensures ok ==> (verify(token, ProxySecret(env).value).Some?
      && verify(token, ProxySecret(env).value).value.alg == "HS256"
      && UserFromPayload(verify(token, ProxySecret(env).value).value.payload).Some?)
  {
    match ProxySecret(env)
    case None => false
    case Some(key) =>
      match verify(token, key)
      case None => false
      case Some(verified) =>
        if verified.alg != "HS256" then false
        else verified.payload.email.Str? && RoleFromClaim(verified.payload.role).Some?
  }

  /** The gatekeeper accepts a token only where the session check would also accept it,
      and, for HS256 tokens under a secret of at least 32 characters, wherever it does. */
  lemma VerifyTokenAgreesWithSession(env: Env, verify: Verifier, token: string)
    ensures VerifyToken(env, verify, token) ==> VerifySession(env, verify, token).Some?
    ensures ProxySecret(env).Some? && VerifySession(env, verify, token).Some?
      && verify(token, ProxySecret(env).value).value.alg == "HS256"
      ==> VerifyToken(env, verify, token)
  {
  }

  /** `isPublicPath`. */
  function IsPublicPath(pathname: string): bool {
    || StartsWith(pathname, "/_next/")
    || pathname == "/favicon.ico"
    || pathname == "/admin/login"
    || pathname == "/api/admin/login" || pathname == "/api/admin/logout" || pathname == "/api/admin/envcheck"
  }

  /** Creating an enquiry is open to everyone. */
  predicate IsPublicPost(r: Request) {
    r.pathname == "/api/enquiries" && r.httpMethod == "POST"
  }

  /** `handleUnauthenticated`: API paths get a 401 (checked first), admin pages a redirect
      to the login page carrying the original path, anything else passes. */
  function HandleUnauthenticated(pathname: string): (d: Decision)
    ensures StartsWith(pathname, "/api/") ==> d == Decision.Unauthorized
    ensures !StartsWith(pathname, "/api/") && StartsWith(pathname, "/admin") ==> d == RedirectToLogin(pathname)
    ensures !StartsWith(pathname, "/api/") && !StartsWith(pathname, "/admin") ==> d == Pass
  {
    if StartsWith(pathname, "/api/") then Decision.Unauthorized
    else if StartsWith(pathname, "/admin") then RedirectToLogin(pathname)
    else Pass
  }

  /** `proxy`: public paths and the public submission pass; otherwise a missing or empty
      token, or one that fails `verifyToken`, is handled as unauthenticated. */
  function Decide(env: Env, verify: Verifier, r: Request): (d: Decision)
    ensures IsPublicPath(r.pathname) || IsPublicPost(r) ==> d == Pass
    ensures !IsPublicPath(r.pathname) && !IsPublicPost(r) ==>
      (d == (if r.sessionCookie.Some? && r.sessionCookie.value != "" && VerifyToken(env, verify, r.sessionCookie.value)
             then Pass else HandleUnauthenticated(r.pathname)))
  {
    if IsPublicPath(r.pathname) then Pass
    else if r.pathname == "/api/enquiries" && r.httpMethod == "POST" then Pass
    else if r.sessionCookie.None? || r.sessionCookie.value == "" then HandleUnauthenticated(r.pathname)
    else if !VerifyToken(env, verify, r.sessionCookie.value) then HandleUnauthenticated(r.pathname)
    else Pass
  }

  /** The matcher: `/admin/:path*` and `/api/enquiries/:path*`. */
  predicate Matched(pathname: string) {
    || pathname == "/admin" || StartsWith(pathname, "/admin/")
    || pathname == "/api/enquiries" || StartsWith(pathname, "/api/enquiries/")
  }

  /** The gatekeeper runs only on matched paths; others are not intercepted. */
  function Gatekeeper(env: Env, verify: Verifier, r: Request): (d: Decision)
    ensures !Matched(r.pathname) ==> d == Pass
    ensures Matched(r.pathname) ==> d == Decide(env, verify, r)
  {
    if Matched(r.pathname) then Decide(env, verify, r) else Pass
  }

  lemma PrefixChar(s: string, prefix: string, i: nat)
    requires StartsWith(s, prefix) && i < |prefix|
    ensures s[i] == prefix[i]
  {
    assert s[..|prefix|][i] == s[i];
  }

  /** What every matched path looks like in its first characters. */
  lemma MatchedShape(pathname: string)
    requires Matched(pathname)
    ensures |pathname| >= 6 && pathname[1] == 'a'
    ensures pathname[2] == 'd' || (pathname[2] == 'p' && pathname[5] == 'e')
  {
    if StartsWith(pathname, "/admin/") {
      PrefixChar(pathname, "/admin/", 1);
      PrefixChar(pathname, "/admin/", 2);
    } else if StartsWith(pathname, "/api/enquiries/") {
      PrefixChar(pathname, "/api/enquiries/", 1);
      PrefixChar(pathname, "/api/enquiries/", 2);
      PrefixChar(pathname, "/api/enquiries/", 5);
    }
  }

  /** Among the paths the gatekeeper sees, the login page is the only public one. */
  lemma MatchedPublicPathIsLogin(pathname: string)
    requires Matched(pathname)
    ensures IsPublicPath(pathname) <==> pathname == "/admin/login"
  {
    MatchedShape(pathname);
    if StartsWith(pathname, "/_next/") {
      PrefixChar(pathname, "/_next/", 1);
    }
  }

  /** Every path the gatekeeper sees is an API path or an admin page, so an
      unauthenticated request there never falls through to the pass-through fallback. */
  lemma FallbackUnreachable(pathname: string)
    requires Matched(pathname)
    ensures HandleUnauthenticated(pathname) != Pass
    ensures StartsWith(pathname, "/api/enquiries") ==> HandleUnauthenticated(pathname) == Decision.Unauthorized
  {
    if StartsWith(pathname, "/admin/") {
      assert pathname[..6] == pathname[..7][..6];
    }
    if StartsWith(pathname, "/api/enquiries/") {
      assert pathname[..5] == pathname[..15][..5];
    }
    if StartsWith(pathname, "/api/enquiries") {
      assert pathname[..5] == pathname[..14][..5];
    }
  }

  /** Anyone may create an enquiry; every other method on that path, and every subpath,
      needs a valid token, and without one gets a 401. */
  lemma EnquiryCreationIsPublic(env: Env, verify: Verifier, r: Request)
    requires r.pathname == "/api/enquiries" || StartsWith(r.pathname, "/api/enquiries/")
    ensures IsPublicPost(r) ==> Gatekeeper(env, verify, r) == Pass
    ensures !IsPublicPost(r) && (r.sessionCookie.None? || !VerifyToken(env, verify, r.sessionCookie.value))
      ==> Gatekeeper(env, verify, r) == Decision.Unauthorized
  {
    MatchedPublicPathIsLogin(r.pathname);
    if StartsWith(r.pathname, "/api/enquiries/") {
      assert r.pathname[..14] == r.pathname[..15][..14];
    }
    FallbackUnreachable(r.pathname);
  }

  /** With AUTH_SECRET missing or shorter than 32 characters no token verifies, so every
      protected request is refused or redirected. */
  lemma WeakSecretLocksOut(env: Env, verify: Verifier, r: Request)
    requires ProxySecret(env).None?
    requires Matched(r.pathname) && r.pathname != "/admin/login" && !IsPublicPost(r)
    ensures Gatekeeper(env, verify, r) == HandleUnauthenticated(r.pathname)
    ensures Gatekeeper(env, verify, r) != Pass
  {
    MatchedPublicPathIsLogin(r.pathname);
    FallbackUnreachable(r.pathname);
  }
}
