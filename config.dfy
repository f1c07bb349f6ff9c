/**
 * The startup configuration of the service: the `Settings` object that reads
 * the `POSTGRES_*` environment values, checks that a password source exists,
 * reads a password file when one is named, and assembles the components of
 * the database connection URI.
 *
 * The model is one pure function, `Resolve`, from the raw environment and an
 * abstract filesystem (path to file content) to either a connection
 * descriptor or a configuration error.
 */
module Config {
  import opened Wrappers
  import opened PyStrings

  /** Port used when `POSTGRES_PORT` is not supplied. */
  const DefaultPort: int := 5432

  /** SQLAlchemy scheme: the PostgreSQL dialect over the psycopg 3 driver. */
  const Scheme: string := "postgresql+psycopg"

  /**
   * The raw environment: one entry per `POSTGRES_*` name, `None` when the
   * variable is not set. The port is the value after integer coercion.
   */
  datatype Env = Env(
    server: Option<string>,       // POSTGRES_SERVER
    port: Option<int>,            // POSTGRES_PORT
    user: Option<string>,         // POSTGRES_USER
    password: Option<string>,     // POSTGRES_PASSWORD
    passwordFile: Option<string>, // POSTGRES_PASSWORD_FILE (a path)
    db: Option<string>            // POSTGRES_DB
  )

  /** Path to file content; a path that is not a key does not exist. */
  type FileSystem = map<string, string>

  /** The settings fields that are required: they have no default. */
  datatype RequiredField = PostgresServer | PostgresUser | PostgresDb

  /** One per-field failure, as the field validation stage reports it. */
  datatype FieldError =
    | Missing(field: RequiredField)
    | PasswordFileNotFound(path: string)

  /**
   * Why the settings could not be built: the whole-model check that runs
   * before any field, or the list of field failures, in field declaration order.
   */
  datatype ConfigError =
    | NoPasswordSource
    | InvalidFields(errors: seq<FieldError>)

  /**
   * Validated settings. As in the source, the `passwordFile` field no longer
   * holds the path once validated: it holds the password read from that file.
   */
  datatype Settings = Settings(
    server: string,
    port: int,
    user: string,
    password: Option<string>,
    passwordFile: Option<string>,
    db: string
  )

  /** The components from which the connection URI is built. */
  datatype Descriptor = Descriptor(
    scheme: string,
    username: string,
    password: Option<string>,
    host: string,
    port: int,
    path: string
  )

  function FieldValue(env: Env, f: RequiredField): Option<string> {
    match f
    case PostgresServer => env.server
    case PostgresUser => env.user
    case PostgresDb => env.db
  }

  /**
   * The model validator that runs before field parsing: at least one of the
   * two password entries must be present. An empty string counts as present.
   */
  function CheckPasswordSource(env: Env): (r: Result<Env, ConfigError>)
    ensures r.Err? <==> env.password.None? && env.passwordFile.None?
    ensures r.Err? ==> r.error == NoPasswordSource
    ensures r.Ok? ==> r.value == env
  {
    if env.passwordFile.None? && env.password.None? then Err(NoPasswordSource) else Ok(env)
  }

  /**
   * The field validator of `POSTGRES_PASSWORD_FILE`: an absent entry stays
   * absent; a path that exists is replaced by the file's content with
   * surrounding whitespace stripped; a path that does not exist is an error.
   */
  function ReadPasswordFromFile(v: Option<string>, fs: FileSystem): (r: Result<Option<string>, FieldError>)
    ensures v.None? ==> r == Ok(None)
    ensures v.Some? ==> (r.Err? <==> v.value !in fs)
    ensures r.Err? ==> r.error == PasswordFileNotFound(v.value)
    ensures v.Some? && r.Ok? ==> r.value.Some? && IsStripOf(fs[v.value], r.value.value)
  {
    match v
    case None => Ok(None)
    case Some(path) =>
      if path in fs then Ok(Some(Strip(fs[path]))) else Err(PasswordFileNotFound(path))
  }

  function RequireField(f: RequiredField, v: Option<string>): seq<FieldError> {
    if v.None? then [Missing(f)] else []
  }

  /**
   * Every failure of field validation, in the order the fields are declared:
   * server, port, user, password, password file, database. Port and password
   * have defaults and cannot be missing.
   */
  function FieldErrors(env: Env, fs: FileSystem): (errs: seq<FieldError>)
    ensures forall f :: Missing(f) in errs <==> FieldValue(env, f).None?
    ensures forall p :: PasswordFileNotFound(p) in errs <==> env.passwordFile == Some(p) && p !in fs
    ensures |errs| <= 4
  {
    var fileErrs := match ReadPasswordFromFile(env.passwordFile, fs)
      case Err(e) => [e]
      case Ok(_) => [];
    RequireField(PostgresServer, env.server) + RequireField(PostgresUser, env.user)
    + fileErrs + RequireField(PostgresDb, env.db)
  }

  /** Field validation: the settings when every field is valid, else every field failure. */
  function ValidateFields(env: Env, fs: FileSystem): (r: Result<Settings, ConfigError>)
    ensures r.Err? <==> FieldErrors(env, fs) != []
    ensures r.Err? ==> r.error == InvalidFields(FieldErrors(env, fs))
    ensures r.Ok? ==> && Some(r.value.server) == env.server
                      && Some(r.value.user) == env.user
                      && Some(r.value.db) == env.db
                      && r.value.port == env.port.GetOr(DefaultPort)
                      && r.value.password == env.password
                      && Ok(r.value.passwordFile) == ReadPasswordFromFile(env.passwordFile, fs)
  {
    var errs := FieldErrors(env, fs);
    if errs != [] then
      Err(InvalidFields(errs))
    else
      Ok(Settings(
        env.server.value,
        env.port.GetOr(DefaultPort),
        env.user.value,
        env.password,
        ReadPasswordFromFile(env.passwordFile, fs).value,
        env.db.value))
  }

  /** Building `Settings()`: the whole-model check first, then the fields. */
  function LoadSettings(env: Env, fs: FileSystem): (r: Result<Settings, ConfigError>)
    ensures CheckPasswordSource(env).Err? ==> r == Err(NoPasswordSource)
    ensures CheckPasswordSource(env).Ok? ==> r == ValidateFields(env, fs)
  {
    match CheckPasswordSource(env)
    case Err(e) => Err(e)
    case Ok(data) => ValidateFields(data, fs)
  }

  /**
   * The `SQLALCHEMY_DATABASE_URI` components. A non-empty direct password is
   * used; an absent or empty one gives way to the value read from the file.
   */
  function DatabaseUri(s: Settings): (d: Descriptor)
    ensures d.scheme == Scheme
    ensures d.username == s.user && d.host == s.server && d.port == s.port && d.path == s.db
    ensures s.password.Some? && s.password.value != "" ==> d.password == s.password
    ensures s.password.None? || s.password == Some("") ==> d.password == s.passwordFile
  {
    var password := if s.password.Some? && s.password.value != "" then s.password else s.passwordFile;
    Descriptor(Scheme, s.user, password, s.server, s.port, s.db)
  }

  /**
   * Reference definition of a configuration the service can start with: a
   * password source, the three required fields, and an existing password
   * file whenever one is named.
   */
  ghost predicate Startable(env: Env, fs: FileSystem) {
    && (env.password.Some? || env.passwordFile.Some?)
    && env.server.Some? && env.user.Some? && env.db.Some?
    && (env.passwordFile.Some? ==> env.passwordFile.value in fs)
  }

  /** Startup resolution: the settings object, then the URI components. */
  function Resolve(env: Env, fs: FileSystem): (r: Result<Descriptor, ConfigError>)
    ensures r == Err(NoPasswordSource) <==> env.password.None? && env.passwordFile.None?
    ensures r.Ok? <==> Startable(env, fs)
    ensures env.passwordFile.Some? && env.passwordFile.value !in fs ==> r.Err?
    ensures env.server.None? || env.user.None? || env.db.None? ==> r.Err?
    ensures r.Ok? ==> && r.value.scheme == Scheme
                      && Some(r.value.username) == env.user
                      && Some(r.value.host) == env.server
                      && Some(r.value.path) == env.db
    ensures r.Ok? && env.port.None? ==> r.value.port == DefaultPort
    ensures r.Ok? && env.port.Some? ==> r.value.port == env.port.value
    ensures r.Ok? && env.password.Some? && env.password.value != "" ==> r.value.password == env.password
    ensures r.Ok? && (env.password.None? || env.password == Some("")) ==>
      Ok(r.value.password) == ReadPasswordFromFile(env.passwordFile, fs)
  {
    match LoadSettings(env, fs)
    case Err(e) => Err(e)
    case Ok(s) => Ok(DatabaseUri(s))
  }

  /**
   * Once a password source is present, a failure lists exactly the defects of
   * the environment: every missing required field and the nonexistent file.
   */
  lemma ResolveReportsEveryDefect(env: Env, fs: FileSystem)
    requires env.password.Some? || env.passwordFile.Some?
    requires !Startable(env, fs)
    ensures Resolve(env, fs).Err? && Resolve(env, fs).error.InvalidFields?
    ensures var errs := Resolve(env, fs).error.errors;
      && errs != []
      && (forall f :: Missing(f) in errs <==> FieldValue(env, f).None?)
      && (forall p :: PasswordFileNotFound(p) in errs <==> env.passwordFile == Some(p) && p !in fs)
  {
  }

  /**
   * A named password file that does not exist stops startup even when a
   * direct password is set: the field validator runs regardless.
   */
  lemma MissingPasswordFileIsFatal(env: Env, fs: FileSystem, path: string)
    requires env.passwordFile == Some(path) && path !in fs
    ensures Resolve(env, fs).Err? && Resolve(env, fs).error.InvalidFields?
    ensures PasswordFileNotFound(path) in Resolve(env, fs).error.errors
  {
  }

  /**
   * A non-empty direct password decides the descriptor on its own: with any
   * two filesystems under which startup succeeds, the descriptor is the same.
   */
  lemma DirectPasswordIgnoresFile(env: Env, fs1: FileSystem, fs2: FileSystem)
    requires env.password.Some? && env.password.value != ""
    requires Resolve(env, fs1).Ok? && Resolve(env, fs2).Ok?
    ensures Resolve(env, fs1) == Resolve(env, fs2)
    ensures Resolve(env, fs1).value.password == env.password
  {
  }

  /**
   * An empty direct password passes the password-source check but is falsy,
   * so with no file named the descriptor carries no password at all.
   */
  lemma EmptyPasswordWithoutFile(env: Env, fs: FileSystem)
    requires env.password == Some("") && env.passwordFile.None?
    requires env.server.Some? && env.user.Some? && env.db.Some?
    ensures Resolve(env, fs).Ok? && Resolve(env, fs).value.password.None?
  {
  }

  /**
   * A password taken from a file has no surrounding whitespace, so stripping
   * it again would change nothing.
   */
  lemma FilePasswordIsStripped(env: Env, fs: FileSystem)
    requires Startable(env, fs) && env.passwordFile.Some?
    requires env.password.None? || env.password == Some("")
    ensures var pw := Resolve(env, fs).value.password;
      pw.Some? && Stripped(pw.value) && Strip(pw.value) == pw.value
  {
    var content := fs[env.passwordFile.value];
    assert Resolve(env, fs).value.password == Some(Strip(content));
    StripIdempotent(content);
  }

  /**
   * A secret file holding the secret with whitespace around it, such as the
   * newline that ends most secret files, yields the bare secret.
   */
  lemma PaddedSecretFileYieldsSecret(fs: FileSystem, path: string, lead: string, secret: string, trail: string)
    requires AllSpace(lead) && AllSpace(trail) && Stripped(secret)
    ensures ReadPasswordFromFile(Some(path), fs[path := lead + secret + trail]) == Ok(Some(secret))
  {
    StripSurrounded(lead, secret, trail);
  }

  /**
   * Startup depends on the password file only through whether it exists and
   * what its content strips to.
   */
  lemma ResolveSeesOnlyStrippedFile(env: Env, fs1: FileSystem, fs2: FileSystem)
    requires env.passwordFile.Some?
    requires env.passwordFile.value in fs1 <==> env.passwordFile.value in fs2
    requires env.passwordFile.value in fs1 ==>
      Strip(fs1[env.passwordFile.value]) == Strip(fs2[env.passwordFile.value])
    ensures Resolve(env, fs1) == Resolve(env, fs2)
  {
  }

  /**
   * Whitespace around the secret in a password file does not change the
   * resolved descriptor.
   */
  lemma SurroundingWhitespaceInFileIrrelevant(env: Env, fs: FileSystem, lead: string, secret: string, trail: string)
    requires env.passwordFile.Some?
    requires AllSpace(lead) && AllSpace(trail) && Stripped(secret)
    ensures var path := env.passwordFile.value;
      Resolve(env, fs[path := lead + secret + trail]) == Resolve(env, fs[path := secret])
  {
    var path := env.passwordFile.value;
    StripSurrounded(lead, secret, trail);
    StripSurrounded([], secret, []);
    assert [] + secret + [] == secret;
    ResolveSeesOnlyStrippedFile(env, fs[path := lead + secret + trail], fs[path := secret]);
  }
}
