/** src/conf/env.rs: the runtime environment an application runs in. */
module Env {
  import opened Wrappers

  datatype Environment = Local | Test | Stage | Production

  /** The snake_case name strum gives each variant (`Display`). */
  function Name(e: Environment): string
  {
    match e
    case Local => "local"
    case Test => "test"
    case Stage => "stage"
    case Production => "production"
  }

  /** `Environment::from_str`: the exact snake_case name, case-sensitive. */
  function FromStr(s: string): (r: Option<Environment>)
    ensures r.Some? ==> Name(r.value) == s
  {
    if s == "local" then Some(Local)
    else if s == "test" then Some(Test)
    else if s == "stage" then Some(Stage)
    else if s == "production" then Some(Production)
    else None
  }

  /** Every environment is read back from its own name. */
  lemma FromStrName(e: Environment)
    ensures FromStr(Name(e)) == Some(e)
  {
  }

  /** `Environment::from_app_env`: an unset `APP_ENV` means `Local` (the
      default variant); a value that is no environment's name is an error
      that quotes it. */
  function FromAppEnv(appEnv: Option<string>): (r: Result<Environment, string>)
    ensures appEnv.None? ==> r == Success(Local)
    ensures appEnv.Some? && r.Success? ==> Name(r.value) == appEnv.value
    ensures appEnv.Some? ==> (r.Failure? <==> forall e: Environment :: Name(e) != appEnv.value)
    ensures r.Failure? ==> r.error == "APP_ENV invalid value \"" + appEnv.value + "\""
  {
    match appEnv
    case None => Success(Local)
    case Some(v) =>
      match FromStr(v)
      case Some(e) => Success(e)
      case None => Failure("APP_ENV invalid value \"" + v + "\"")
  }
}
