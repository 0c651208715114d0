/**
 * Configuration from the environment. The environment is a map from
 * variable name to value; a name missing from the map is unset.
 */
module Config {
  import opened Wrappers

  type Env = map<string, string>

  datatype Config = Config(
    appEnv: string,
    appUrl: string,
    appPort: string,
    databaseUrl: string,
    redisUrl: string,
    jwtSecret: string,
    jwtExpiration: string,
    smtpHost: string,
    smtpPort: string,
    smtpUser: string,
    smtpPass: string,
    fromEmail: string,
    fromName: string,
    maxUploadSize: string)

  /** os.Getenv: the value, or "" when unset. */
  function Getenv(env: Env, key: string): string
  {
    if key in env then env[key] else ""
  }

  /** getEnv: the variable when it is non-empty, otherwise the fallback; empty counts as unset. */
  function GetEnv(env: Env, key: string, fallback: string): (v: string)
    ensures key in env && env[key] != "" ==> v == env[key]
    ensures (key !in env || env[key] == "") ==> v == fallback
    ensures v == "" ==> fallback == ""
  {
    var value := Getenv(env, key);
    if value != "" then value else fallback
  }

  const DatabaseUrlRequired := "DATABASE_URL is required"
  const RedisUrlRequired := "REDIS_URL is required"

  /**
   * Load: defaults for the optional variables, the rest copied verbatim,
   * then DATABASE_URL checked before REDIS_URL.
   */
  function Load(env: Env): (r: Result<Config, string>)
    ensures r.Err? <==> Getenv(env, "DATABASE_URL") == "" || Getenv(env, "REDIS_URL") == ""
    ensures Getenv(env, "DATABASE_URL") == "" ==> r == Err(DatabaseUrlRequired)
    ensures Getenv(env, "DATABASE_URL") != "" && Getenv(env, "REDIS_URL") == "" ==> r == Err(RedisUrlRequired)
    ensures r.Ok? ==>
              && r.value.databaseUrl == env["DATABASE_URL"]
              && r.value.redisUrl == env["REDIS_URL"]
              && r.value.appEnv == GetEnv(env, "APP_ENV", "development")
              && r.value.appUrl == GetEnv(env, "APP_URL", "http://localhost:3000")
              && r.value.appPort == GetEnv(env, "APP_PORT", "3000")
              && r.value.jwtExpiration == GetEnv(env, "JWT_EXPIRATION", "24h")
              && r.value.maxUploadSize == GetEnv(env, "MAX_UPLOAD_SIZE", "10485760")
              && r.value.jwtSecret == Getenv(env, "JWT_SECRET")
              && r.value.smtpHost == Getenv(env, "SMTP_HOST")
              && r.value.smtpPort == Getenv(env, "SMTP_PORT")
              && r.value.smtpUser == Getenv(env, "SMTP_USER")
              && r.value.smtpPass == Getenv(env, "SMTP_PASS")
              && r.value.fromEmail == Getenv(env, "FROM_EMAIL")
              && r.value.fromName == Getenv(env, "FROM_NAME")
  {
    var cfg := Config(
      GetEnv(env, "APP_ENV", "development"),
      GetEnv(env, "APP_URL", "http://localhost:3000"),
      GetEnv(env, "APP_PORT", "3000"),
      Getenv(env, "DATABASE_URL"),
      Getenv(env, "REDIS_URL"),
      Getenv(env, "JWT_SECRET"),
      GetEnv(env, "JWT_EXPIRATION", "24h"),
      Getenv(env, "SMTP_HOST"),
      Getenv(env, "SMTP_PORT"),
      Getenv(env, "SMTP_USER"),
      Getenv(env, "SMTP_PASS"),
      Getenv(env, "FROM_EMAIL"),
      Getenv(env, "FROM_NAME"),
      GetEnv(env, "MAX_UPLOAD_SIZE", "10485760"));
    if cfg.databaseUrl == "" then Err(DatabaseUrlRequired)
    else if cfg.redisUrl == "" then Err(RedisUrlRequired)
    else Ok(cfg)
  }

  /** IsDevelopment: the app runs in development mode exactly when APP_ENV is "development". */
  predicate IsDevelopment(c: Config): (dev: bool)
    ensures dev <==> c.appEnv == "development"
  {
    c.appEnv == "development"
  }

  /**
   * With only the two required URLs set, every optional field takes its
   * default, the JWT and SMTP fields are empty, and the app is in
   * development mode.
   */
  lemma MinimalEnvironment(databaseUrl: string, redisUrl: string)
    requires databaseUrl != "" && redisUrl != ""
    ensures var r := Load(map["DATABASE_URL" := databaseUrl, "REDIS_URL" := redisUrl]);
            && r.Ok?
            && r.value == Config("development", "http://localhost:3000", "3000", databaseUrl, redisUrl,
                                 "", "24h", "", "", "", "", "", "", "10485760")
            && IsDevelopment(r.value)
  {
  }

  /** Development mode iff APP_ENV is unset, empty, or "development". */
  lemma DevelopmentIffAppEnv(env: Env)
    requires Load(env).Ok?
    ensures IsDevelopment(Load(env).value) <==> Getenv(env, "APP_ENV") == "" || Getenv(env, "APP_ENV") == "development"
  {
  }
}
