/** The configuration diagnostics endpoint: which authentication variables are present,
    and only the lengths and the first four characters of the password hash. */
module EnvCheckRoute {
  import opened Wrappers
  import opened Strings
  import opened ProcessEnv
  import opened Auth

  datatype EnvReport = EnvReport(
    hasAdminEmail: bool, hasAdminHash: bool, hasAuthSecret: bool, hasAdminHashB64: bool,
    rawHashB64Len: nat, rawHashLen: nat, hashLen: nat, hashPrefix: string)

  /** `s.slice(0, n)` for a natural `n`. */
  function Slice(s: string, n: nat): (r: string)
    ensures |r| == if |s| < n then |s| else n
    ensures StartsWith(s, r)
  {
    if |s| < n then s else s[..n]
  }

  /** `GET /api/admin/envcheck`. */
  function EnvCheck(env: Env, decode: Base64Decoder): (r: EnvReport)
    ensures r.hasAdminEmail <==> Trim(RawEnv(env, "ADMIN_EMAIL")) != ""
    ensures r.hasAuthSecret <==> Trim(RawEnv(env, "AUTH_SECRET")) != ""
    ensures r.hasAdminHashB64 <==> r.rawHashB64Len > 0
    ensures r.rawHashB64Len == |Trim(RawEnv(env, "ADMIN_PASSWORD_HASH_B64"))|
    ensures r.rawHashLen == |Trim(RawEnv(env, "ADMIN_PASSWORD_HASH"))|
    ensures r.hashLen == |AdminPasswordHash(env, decode)|
    ensures r.hasAdminHash <==> r.hashLen > 0
    ensures |r.hashPrefix| == if r.hashLen < 4 then r.hashLen else 4
    ensures StartsWith(AdminPasswordHash(env, decode), r.hashPrefix)
  {
    var adminEmail := Trim(RawEnv(env, "ADMIN_EMAIL"));
    var authSecret := Trim(RawEnv(env, "AUTH_SECRET"));
    var rawHashB64 := Trim(RawEnv(env, "ADMIN_PASSWORD_HASH_B64"));
    var rawHash := Trim(RawEnv(env, "ADMIN_PASSWORD_HASH"));
    var adminHash := AdminPasswordHash(env, decode);
    EnvReport(adminEmail != "", adminHash != "", authSecret != "", rawHashB64 != "",
              |rawHashB64|, |rawHash|, |adminHash|, Slice(adminHash, 4))
  }

  /** Under a configuration that passes the authentication checks every flag is set, the
      hash is at least 55 characters and its reported prefix is a bcrypt prefix. */
  lemma ValidConfigReport(env: Env, decode: Base64Decoder)
    requires ValidateAuthConfig(env, decode) == ConfigOk
    ensures var r := EnvCheck(env, decode);
      && r.hasAdminEmail && r.hasAdminHash && r.hasAuthSecret
      && r.hashLen >= 55
      && (r.hashPrefix == "$2a$" || r.hashPrefix == "$2b$")
  {
    var h := AdminPasswordHash(env, decode);
    var r := EnvCheck(env, decode);
    assert |Trim(RawEnv(env, "AUTH_SECRET"))| >= 32;
    assert r.hashPrefix == h[..4];
  }

  /** The report discloses nothing beyond whether the email and secret are set, the two
      raw lengths, the parsed hash's length and its first four characters: environments
      that agree on those give the same report, whatever the values themselves are. */
  lemma ReportRevealsOnlyMetadata(env1: Env, env2: Env, decode: Base64Decoder)
    requires (Trim(RawEnv(env1, "ADMIN_EMAIL")) == "") == (Trim(RawEnv(env2, "ADMIN_EMAIL")) == "")
    requires (Trim(RawEnv(env1, "AUTH_SECRET")) == "") == (Trim(RawEnv(env2, "AUTH_SECRET")) == "")
    requires |Trim(RawEnv(env1, "ADMIN_PASSWORD_HASH_B64"))| == |Trim(RawEnv(env2, "ADMIN_PASSWORD_HASH_B64"))|
    requires |Trim(RawEnv(env1, "ADMIN_PASSWORD_HASH"))| == |Trim(RawEnv(env2, "ADMIN_PASSWORD_HASH"))|
    requires |AdminPasswordHash(env1, decode)| == |AdminPasswordHash(env2, decode)|
    requires Slice(AdminPasswordHash(env1, decode), 4) == Slice(AdminPasswordHash(env2, decode), 4)
    ensures EnvCheck(env1, decode) == EnvCheck(env2, decode)
  {
    var r1, r2 := EnvCheck(env1, decode), EnvCheck(env2, decode);
    assert r1.hasAdminHashB64 == r2.hasAdminHashB64;
  }
}
