/** src/conf/mod.rs: reading typed settings from environment variables.
    A variable's value is a parameter: `None` when it is unset (or not
    valid Unicode), `Some(text)` otherwise. */
module Conf {
  import opened Wrappers
  import opened Strings

  /** `bool::from_str`: exactly "true" or "false". */
  function ParseBool(s: string): Option<bool>
  {
    if s == "true" then Some(true) else if s == "false" then Some(false) else None
  }

  /** The text `env_bool` parses: "0" and "1" stand for "false" and "true",
      anything else is lower-cased. */
  function NormalizeBool(v: string): string
  {
    if v == "0" then "false" else if v == "1" then "true" else AsciiLower(v)
  }

  /** `env_bool`: an unset variable gives the default; a set one must read
      as a boolean, or the error names the variable and the normalised text. */
  function EnvBool(name: string, value: Option<string>, default: bool): Result<bool, string>
  {
    match value
    case None => Success(default)
    case Some(v) =>
      var normalized := NormalizeBool(v);
      match ParseBool(normalized)
      case Some(b) => Success(b)
      case None => Failure(name + " invalid boolean \"" + normalized + "\"")
  }

  /** What `env_bool` accepts: "0", "1", and "true"/"false" in any letter
      case; "1" and every spelling of "true" mean true. */
  lemma EnvBoolAccepts(name: string, v: string, default: bool)
    ensures EnvBool(name, Some(v), default).Success?
      <==> v == "0" || v == "1" || AsciiLower(v) == "true" || AsciiLower(v) == "false"
    ensures EnvBool(name, Some(v), default).Success? ==>
      EnvBool(name, Some(v), default).value == (v == "1" || AsciiLower(v) == "true")
    ensures EnvBool(name, Some(v), default).Failure? ==>
      EnvBool(name, Some(v), default).error == name + " invalid boolean \"" + AsciiLower(v) + "\""
  {
    if v == "0" {
      assert AsciiLower(v) == "0";
    } else if v == "1" {
      assert AsciiLower(v) == "1";
    }
  }

  /** The variable is read once more whatever its letter case: "TRUE" and
      "False" are accepted, an unset variable yields the default. */
  lemma EnvBoolExamples(name: string, default: bool)
    ensures EnvBool(name, Some("TRUE"), default) == Success(true)
    ensures EnvBool(name, Some("False"), default) == Success(false)
    ensures EnvBool(name, Some("yes"), default) == Failure(name + " invalid boolean \"yes\"")
    ensures EnvBool(name, None, default) == Success(default)
  {
    assert AsciiLower("TRUE") == "true";
    assert AsciiLower("False") == "false";
    assert AsciiLower("yes") == "yes";
    assert NormalizeBool("yes") == "yes" && ParseBool("yes").None?;
    assert name + " invalid boolean \"" + "yes" + "\"" == name + " invalid boolean \"yes\"";
  }

  /** `env_parsable`: an unset variable gives the default; a set one is
      handed to the type's parser, whose rejection becomes an error that
      names the variable and quotes the raw text. */
  function EnvParsable<A>(name: string, value: Option<string>, default: A, parse: string -> Option<A>): (r: Result<A, string>)
    ensures value.None? ==> r == Success(default)
    ensures value.Some? ==> (r.Success? <==> parse(value.value).Some?)
    ensures value.Some? && r.Success? ==> r.value == parse(value.value).value
    ensures r.Failure? ==> r.error == name + " invalid number \"" + value.value + "\""
  {
    match value
    case None => Success(default)
    case Some(v) =>
      match parse(v)
      case Some(a) => Success(a)
      case None => Failure(name + " invalid number \"" + v + "\"")
  }
}
