# Startup configuration resolver of the IoT sensors backend

The service reads its database connection settings from `POSTGRES_*`
environment variables when it starts (`config.py`, class `Settings`). It
insists on a password source. It reads the password from a secret file when
a path is given, picks the effective password by a precedence rule, and
assembles the parts of the SQLAlchemy connection URI. This project models
that resolver as one pure function:

    Config.Resolve(env: Env, fs: FileSystem): Result<Descriptor, ConfigError>

- `Env` holds the six `POSTGRES_*` entries, each an `Option` (`None` when the
  variable is unset).
- `FileSystem` is `map<string, string>` from path to file content. A path
  that is not a key does not exist.
- `Descriptor` is the record of URI components: scheme, username, password,
  host, port and database path.

The stages run in the source's order:
1. `CheckPasswordSource` is the model validator that runs before any field.
   It fails with `NoPasswordSource` when both password entries are absent.
2. `ValidateFields` runs field validation. It gathers every
   field failure, in field declaration order, into `InvalidFields`: a missing
   `POSTGRES_SERVER`, `POSTGRES_USER` or `POSTGRES_DB`, and a password file
   that does not exist. `ReadPasswordFromFile` replaces an existing file's
   path by the file's content passed through Python's `str.strip()`.
3. `DatabaseUri` uses the direct password when it is a non-empty string, and
   the value read from the file otherwise.

`PyStrings` models `str.strip()` with Python's own whitespace set
(`str.isspace`, which includes Unicode spaces such as U+00A0 and U+3000).
`IsStripOf` is an independent reference definition of stripping, with a
uniqueness lemma.

Two behaviours of `config.py` are easy to miss:
- `strip()` removes leading whitespace as well as trailing whitespace.
- A direct password wins only when it is non-empty. An empty
  `POSTGRES_PASSWORD` counts as present for the password-source check, but
  the value read from the file is used instead, and that value may be absent.

## Model

| member | source | states |
|---|---|---|
| `PyStrings.IsSpaceMatchesTable` | config.py:68 | the characters `strip()` removes are exactly Python's whitespace set: U+0009 to U+000D, U+001C to U+001F, U+0020, U+0085, U+00A0, U+1680, U+2000 to U+200A, U+2028, U+2029, U+202F, U+205F and U+3000; the range tests agree with that 29-character table |
| `PyStrings.Strip` | config.py:66-68 | the stripped content is what remains of the input after a whitespace-only prefix and suffix are removed, and it neither starts nor ends with whitespace |
| `PyStrings.TrimStart` | config.py:68 | the result is a suffix of the input, everything dropped is whitespace, and the result does not start with whitespace |
| `PyStrings.TrimEnd` | config.py:68 | the result is a prefix of the input, everything dropped is whitespace, and the result does not end with whitespace |
| `PyStrings.StripOfUnique` | config.py:68 | for any string, at most one string is a strip of it, so the reference definition pins the result down |
| `PyStrings.StripIdempotent` | config.py:68 | stripping a stripped password again changes nothing |
| `PyStrings.StripSurrounded` | config.py:67-68 | whitespace around a stripped secret, such as a trailing newline, is exactly what is removed |
| `PyStrings.StripEmptyIffAllSpace` | config.py:68 | the file-derived password is empty exactly when the file holds only whitespace |
| `Config.CheckPasswordSource` | config.py:36-54 | fails with `NoPasswordSource` exactly when both `POSTGRES_PASSWORD` and `POSTGRES_PASSWORD_FILE` are absent; an empty string counts as present; on success the input passes through unchanged |
| `Config.ReadPasswordFromFile` | config.py:56-70 | an absent entry stays absent; a nonexistent path fails with that path; an existing file yields its content with surrounding whitespace stripped |
| `Config.FieldErrors` | config.py:23-34 | a required field is reported missing exactly when it is absent, and a password-file error is reported exactly when the named path does not exist |
| `Config.ValidateFields` | config.py:23-34 | field validation fails exactly when there is a field error, and then it reports all of them; on success the fields carry the environment's values, the port defaults to 5432, and the file entry holds the file-derived password |
| `Config.LoadSettings` | config.py:36-70 | the password-source check runs first, and its failure stops field validation; otherwise the outcome is that of field validation |
| `Config.DatabaseUri` | config.py:72-94 | scheme `postgresql+psycopg`, username, host, port and path come from the settings unchanged; a non-empty direct password is used, and an absent or empty one gives way to the file-derived value |
| `Config.Resolve` | config.py:23-94 | fails with `NoPasswordSource` exactly when both password entries are absent; succeeds exactly when the configuration is `Startable`; a nonexistent password file or a missing server, user or database is fatal; on success the descriptor has the fixed scheme, the given user, host and database, port 5432 unless one is supplied, and the password chosen by the precedence rule |
| `Config.ResolveReportsEveryDefect` | config.py:26-69 | once a password source is present, a failure lists every missing required field and the nonexistent password file, and nothing else |
| `Config.MissingPasswordFileIsFatal` | config.py:63-69 | a nonexistent password file is reported as an error even when a direct password is set |
| `Config.DirectPasswordIgnoresFile` | config.py:87-89 | a non-empty direct password is the descriptor's password, and the file contents do not change the descriptor |
| `Config.EmptyPasswordWithoutFile` | config.py:47-53 | with `POSTGRES_PASSWORD` set to `""` and no file named, startup succeeds and the descriptor has no password |
| `Config.FilePasswordIsStripped` | config.py:65-68 | a password taken from a file has no leading or trailing whitespace, and stripping it again leaves it unchanged |
| `Config.PaddedSecretFileYieldsSecret` | config.py:65-68 | a secret file holding the secret with whitespace around it, such as a trailing newline, yields exactly the bare secret |
| `Config.ResolveSeesOnlyStrippedFile` | config.py:63-69 | the outcome of startup depends on the password file only through whether the path exists and what its content strips to |
| `Config.SurroundingWhitespaceInFileIrrelevant` | config.py:66-68 | a secret file with whitespace around the secret resolves to the same descriptor as a file holding the bare secret |

## Left out

- `app.py` is not part of this model. That covers the `Hero` table model, engine creation, schema creation at startup and the HTTP handlers. They are thin calls into FastAPI, SQLModel and a database whose code is not shown.
- Real file I/O (`os.path.exists`, `open`, `read`) is a map lookup. The map holds the text that `read()` returns, so character decoding and universal-newline translation are not modelled.
- Paths that exist but cannot be read as files are not modelled. For example, `open` on a directory raises an OS error, not a validation error.
- String-to-integer coercion of `POSTGRES_PORT` and its parse errors are not modelled. `Env.port` is the value after coercion, so no port error exists in the model.
- `MultiHostUrl.build` and `PostgresDsn` are library code that is not shown. The descriptor is the record of URI components. Percent-encoding of credentials and URL validation are not modelled.
- The pydantic-settings machinery is not modelled: environment name matching, the `isinstance(data, dict)` guard (the settings source always supplies a mapping) and the wording of error messages. The error list keeps only each failure's kind and field.
- The settings instance built at import time (config.py:99) is not modelled. `Resolve` is that one construction, made a function of its inputs.
