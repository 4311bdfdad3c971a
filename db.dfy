/** How the database client finds its SQLite file: DATABASE_URL, or a development default,
    must be a `file:` URL, and the path is what follows that scheme. */
module Db {
  import opened Wrappers
  import opened Strings
  import opened ProcessEnv

  const Scheme := "file:"
  const DefaultUrl := "file:./dev.db"

  /** `sqlitePathFromUrl`: a URL without the `file:` scheme is refused with the message the
      client throws; otherwise the first `file:` is removed. */
  function SqlitePathFromUrl(url: string): (r: Result<string, string>)
    ensures r.Failure? <==> !StartsWith(url, Scheme)
    ensures r.Failure? ==> r.error == "SQLite DATABASE_URL must start with \"file:\". Got: " + url
    ensures r.Success? ==> Scheme + r.value == url
  {
    if !StartsWith(url, Scheme) then
      Failure("SQLite DATABASE_URL must start with \"file:\". Got: " + url)
    else
      ReplaceFirstAtStart(url, Scheme);
      Success(ReplaceFirst(url, Scheme, ""))
  }

  /** `process.env.DATABASE_URL ?? "file:./dev.db"`: only an unset variable falls back;
      an empty one is kept (and then refused). */
  function DatabaseUrl(env: Env): (url: string)
    ensures "DATABASE_URL" in env ==> url == env["DATABASE_URL"]
    ensures "DATABASE_URL" !in env ==> url == DefaultUrl
  {
    match Get(env, "DATABASE_URL")
    case Some(u) => u
    case None => DefaultUrl
  }

  /** The path is the URL's inverse image under prefixing the scheme: every path comes
      back from its own `file:` URL. */
  lemma PathRoundTrip(path: string)
    ensures SqlitePathFromUrl(Scheme + path) == Success(path)
  {
    assert StartsWith(Scheme + path, Scheme) by {
      assert (Scheme + path)[..|Scheme|] == Scheme;
    }
  }

  /** Without DATABASE_URL the client opens `./dev.db`. */
  lemma DefaultDatabasePath(env: Env)
    requires "DATABASE_URL" !in env
    ensures SqlitePathFromUrl(DatabaseUrl(env)) == Success("./dev.db")
  {
    var url := DatabaseUrl(env);
    assert url == DefaultUrl;
    assert url[..|Scheme|] == Scheme;
    var r := SqlitePathFromUrl(url);
    assert r.value == (Scheme + r.value)[|Scheme|..] == url[|Scheme|..];
  }

  /** An empty DATABASE_URL is kept, not replaced by the default, and so is refused. */
  lemma EmptyDatabaseUrlRefused(env: Env)
    requires Get(env, "DATABASE_URL") == Some("")
    ensures SqlitePathFromUrl(DatabaseUrl(env)).Failure?
  {
    assert DatabaseUrl(env) == "";
  }
}
