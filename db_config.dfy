/** src/conf/db.rs: the database connection settings, read from the
    environment. */
module DbConf {
  import opened Wrappers
  import opened Strings
  import opened Conf
  import opened Env

  /** Durations are kept in the unit their variable is given in. */
  datatype DbConfig = DbConfig(
    databaseUrl: string,
    minConnections: nat,
    maxConnections: nat,
    acquireTimeoutMs: nat,
    idleTimeoutSec: nat,
    testBeforeAcquire: bool)

  /** The values of the variables `init_for` reads; `None` when unset. */
  datatype DbVars = DbVars(
    databaseUrl: Option<string>,
    minConnections: Option<string>,
    maxConnections: Option<string>,
    acquireTimeoutMs: Option<string>,
    idleTimeoutSec: Option<string>,
    testBeforeAcquire: Option<string>)

  /** `u32::from_str` and `u64::from_str`. */
  function ParseU32(s: string): Option<nat> { ParseUnsigned(s, U32_BOUND) }
  function ParseU64(s: string): Option<nat> { ParseUnsigned(s, U64_BOUND) }

  /** The test environment always uses a database whose name ends in
      "_test", appending the suffix when it is missing. */
  function DatabaseUrlFor(env: Environment, url: string): (r: string)
    ensures env == Test ==> EndsWith(r, "_test")
    ensures env == Test && EndsWith(url, "_test") ==> r == url
    ensures env == Test && !EndsWith(url, "_test") ==> r == url + "_test"
    ensures env != Test ==> r == url
  {
    if env == Test && !EndsWith(url, "_test") then url + "_test" else url
  }

  /** Appending the suffix once is enough: the rule is idempotent. */
  lemma DatabaseUrlForIdempotent(env: Environment, url: string)
    ensures DatabaseUrlFor(env, DatabaseUrlFor(env, url)) == DatabaseUrlFor(env, url)
  {
  }

  /** `DbConfig::init_for`: the URL is required; each other setting has a
      default and must parse when it is set. The first failing variable,
      in this order, decides the error. */
  function InitFor(env: Environment, vars: DbVars): Result<DbConfig, string>
  {
    if vars.databaseUrl.None? then Failure("DATABASE_URL must be set")
    else
      var databaseUrl := DatabaseUrlFor(env, vars.databaseUrl.value);
      var minConnections :- EnvParsable("MIN_CONNECTIONS", vars.minConnections, 1, ParseU32);
      var maxConnections :- EnvParsable("MAX_CONNECTIONS", vars.maxConnections, 10, ParseU32);
      var acquireTimeoutMs :- EnvParsable("ACQUIRE_TIMEOUT_MS", vars.acquireTimeoutMs, 750, ParseU64);
      var idleTimeoutSec :- EnvParsable("IDLE_TIMEOUT_SEC", vars.idleTimeoutSec, 300, ParseU64);
      var testBeforeAcquire :- EnvBool("TEST_BEFORE_ACQUIRE", vars.testBeforeAcquire, false);
      Success(DbConfig(databaseUrl, minConnections, maxConnections, acquireTimeoutMs, idleTimeoutSec, testBeforeAcquire))
  }

  /** A variable a `u32` (or `u64`) setting accepts: unset, or a number. */
  predicate ParsesU32(value: Option<string>) { value.None? || ParseU32(value.value).Some? }
  predicate ParsesU64(value: Option<string>) { value.None? || ParseU64(value.value).Some? }

  /** The message of `env_parsable` for a set variable that does not parse. */
  function InvalidNumber(name: string, value: string): string
  {
    name + " invalid number \"" + value + "\""
  }

  /** The `?` chain of `init_for` stops at the first variable that fails,
      in the order URL, MIN_CONNECTIONS, MAX_CONNECTIONS, ACQUIRE_TIMEOUT_MS,
      IDLE_TIMEOUT_SEC, TEST_BEFORE_ACQUIRE, and returns that variable's error. */
  lemma InitForFirstError(env: Environment, vars: DbVars)
    ensures vars.databaseUrl.Some? && !ParsesU32(vars.minConnections) ==>
      InitFor(env, vars) == Failure(InvalidNumber("MIN_CONNECTIONS", vars.minConnections.value))
    ensures vars.databaseUrl.Some? && ParsesU32(vars.minConnections) && !ParsesU32(vars.maxConnections) ==>
      InitFor(env, vars) == Failure(InvalidNumber("MAX_CONNECTIONS", vars.maxConnections.value))
    ensures (vars.databaseUrl.Some? && ParsesU32(vars.minConnections) && ParsesU32(vars.maxConnections)
             && !ParsesU64(vars.acquireTimeoutMs)) ==>
      InitFor(env, vars) == Failure(InvalidNumber("ACQUIRE_TIMEOUT_MS", vars.acquireTimeoutMs.value))
    ensures (vars.databaseUrl.Some? && ParsesU32(vars.minConnections) && ParsesU32(vars.maxConnections)
             && ParsesU64(vars.acquireTimeoutMs) && !ParsesU64(vars.idleTimeoutSec)) ==>
      InitFor(env, vars) == Failure(InvalidNumber("IDLE_TIMEOUT_SEC", vars.idleTimeoutSec.value))
    ensures (vars.databaseUrl.Some? && ParsesU32(vars.minConnections) && ParsesU32(vars.maxConnections)
             && ParsesU64(vars.acquireTimeoutMs) && ParsesU64(vars.idleTimeoutSec)
             && EnvBool("TEST_BEFORE_ACQUIRE", vars.testBeforeAcquire, false).Failure?) ==>
      InitFor(env, vars) == Failure(EnvBool("TEST_BEFORE_ACQUIRE", vars.testBeforeAcquire, false).error)
  {
  }

  /** `init_for` succeeds exactly when the URL is set and every other set
      variable parses; it then holds the adjusted URL. */
  lemma InitForAccepts(env: Environment, vars: DbVars)
    ensures InitFor(env, vars).Success? <==>
      && vars.databaseUrl.Some?
      && ParsesU32(vars.minConnections)
      && ParsesU32(vars.maxConnections)
      && ParsesU64(vars.acquireTimeoutMs)
      && ParsesU64(vars.idleTimeoutSec)
      && EnvBool("TEST_BEFORE_ACQUIRE", vars.testBeforeAcquire, false).Success?
    ensures InitFor(env, vars).Success? ==>
      InitFor(env, vars).value.databaseUrl == DatabaseUrlFor(env, vars.databaseUrl.value)
    ensures vars.databaseUrl.None? ==> InitFor(env, vars) == Failure("DATABASE_URL must be set")
  {
  }

  /** With only the URL set, every other setting takes its default. */
  lemma InitForDefaults(env: Environment, url: string)
    ensures InitFor(env, DbVars(Some(url), None, None, None, None, None))
      == Success(DbConfig(DatabaseUrlFor(env, url), 1, 10, 750, 300, false))
  {
  }

  /** A connection count written as the decimal text of any `u32` is read
      back as that number. */
  lemma InitForReadsMinConnections(env: Environment, url: string, n: nat)
    requires n < U32_BOUND
    ensures InitFor(env, DbVars(Some(url), Some(ToDecimal(n)), None, None, None, None)).Success?
    ensures InitFor(env, DbVars(Some(url), Some(ToDecimal(n)), None, None, None, None)).value.minConnections == n
  {
    ParseToDecimal(n, U32_BOUND);
  }
}
