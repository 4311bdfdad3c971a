/** The process environment as the handlers read it: a finite map from variable names to
    values. A missing key is `process.env[key] === undefined`. */
module ProcessEnv {
  import opened Wrappers

  type Env = map<string, string>

  /** `process.env[key]`. */
  function Get(env: Env, key: string): (r: Option<string>)
    ensures r.Some? <==> key in env
    ensures r.Some? ==> r.value == env[key]
  {
    if key in env then Some(env[key]) else None
  }

  /** `getRawEnv(key)`: the value, or "" when the variable is unset. */
  function RawEnv(env: Env, key: string): (r: string)
    ensures key in env ==> r == env[key]
    ensures key !in env ==> r == ""
  {
    match Get(env, key)
    case Some(v) => v
    case None => ""
  }
}
