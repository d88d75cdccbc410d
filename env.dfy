/** src/shared/validators/validateEnv.ts: reading configuration from the process
    environment, given here as a map from variable names to their text. */
module EnvValidation {
  import opened JsSemantics
  import opened Errors

  function NotSetError(name: string): Thrown
  {
    Raise("Environment variable " + name + " is not set.", 500)
  }

  function NotNumberError(name: string): Thrown
  {
    Raise("Environment variable " + name + " should be a number.", 500)
  }

  /** The variable is undefined or empty. */
  predicate Missing(env: map<string, string>, name: string)
  {
    name !in env || env[name] == ""
  }

  /** `getEnvVar(name, defaultValue)`: a set value as it is; a missing one gives the
      default, or a 500 naming the variable when there is none. */
  function GetEnvVar(env: map<string, string>, name: string, defaultValue: Option<string>): (r: Result<string>)
    ensures !Missing(env, name) ==> r == Ok(env[name])
    ensures Missing(env, name) && defaultValue.Some? ==> r == Ok(defaultValue.value)
    ensures Missing(env, name) && defaultValue.None? ==> r == Fail(NotSetError(name))
  {
    if Missing(env, name) then
      if defaultValue.Some? then Ok(defaultValue.value) else Fail(NotSetError(name))
    else Ok(env[name])
  }

  /** `getEnvVarAsNumber(name, defaultValue)`: a missing value gives the default, or a
      500; a set value is read by `parseInt(value, 10)`, and one with no leading digits
      gives a 500 even when a default exists. */
  function GetEnvVarAsNumber(env: map<string, string>, name: string, defaultValue: Option<int>): (r: Result<int>)
    ensures Missing(env, name) && defaultValue.Some? ==> r == Ok(defaultValue.value)
    ensures Missing(env, name) && defaultValue.None? ==> r == Fail(NotSetError(name))
    ensures !Missing(env, name) && ParseInt(env[name]).NaN? ==> r == Fail(NotNumberError(name))
    ensures !Missing(env, name) && ParseInt(env[name]).Int? ==> r == Ok(ParseInt(env[name]).i)
  {
    if Missing(env, name) then
      if defaultValue.Some? then Ok(defaultValue.value) else Fail(NotSetError(name))
    else
      match ParseInt(env[name])
      case NaN => Fail(NotNumberError(name))
      case Int(n) => Ok(n)
  }

  /** A malformed value is an error, never replaced by the default. */
  lemma MalformedIgnoresDefault(env: map<string, string>, name: string, d: int)
    requires name in env && env[name] != "" && !IsJsSpace(env[name][0])
    requires env[name][0] != '-' && env[name][0] != '+' && !IsDigit(env[name][0])
    ensures GetEnvVarAsNumber(env, name, Some(d)) == Fail(NotNumberError(name))
  {
    ParseIntNoDigits(env[name]);
  }

  /** Leading digits are enough: a number followed by text that does not start with a
      digit, such as `3000ms`, reads as the number. */
  lemma TrailingTextIgnored(env: map<string, string>, name: string, n: nat, rest: string, d: Option<int>)
    requires rest == [] || !IsDigit(rest[0])
    requires name in env && env[name] == NatToString(n) + rest
    ensures GetEnvVarAsNumber(env, name, d) == Ok(n)
  {
    NatToStringValue(n);
    ParseIntDigits(NatToString(n), rest);
  }

  /** A number written in decimal is read back, whatever the default. */
  lemma WrittenNumberRead(env: map<string, string>, name: string, n: int, d: Option<int>)
    requires name in env && env[name] == IntToString(n)
    ensures GetEnvVarAsNumber(env, name, d) == Ok(n)
  {
    ParseIntOfString(n);
  }

  /** Both readers agree on when a variable is missing and on the error they raise. */
  lemma ReadersAgreeOnMissing(env: map<string, string>, name: string)
    ensures GetEnvVar(env, name, None).Fail? <==> Missing(env, name)
    ensures Missing(env, name) ==> GetEnvVar(env, name, None) == GetEnvVarAsNumber(env, name, None).PropagateFailure()
  {
  }
}
