/** Reading configuration from the process environment (src/environment.ts). */
module Environment {
  import opened Wrappers
  import opened Text

  /** The process environment: variable name to value. */
  type Env = map<string, string>

  /** `getEnv`: the variable's value, or `undefined` when it is not set. */
  function GetEnv(env: Env, variableName: string): (r: Option<string>)
    ensures r.Some? <==> variableName in env
    ensures r.Some? ==> r.value == env[variableName]
  {
    if variableName in env then Some(env[variableName]) else None
  }

  /**
   * `getEnvAsBoolean`: the lowercased value decides; `"auto"` defers to `autoValue`
   * (false when it is not supplied), `"true"` is true, anything else and an unset variable are false.
   */
  function GetEnvAsBoolean(env: Env, variableName: string, autoValue: Option<bool> := None): (r: bool)
    ensures r <==> variableName in env
                   && (LowerAscii(env[variableName]) == "true"
                       || (LowerAscii(env[variableName]) == "auto" && autoValue == Some(true)))
    ensures variableName !in env ==> !r
  {
    match GetEnv(env, variableName)
    case None => false
    case Some(raw) =>
      var lowered := LowerAscii(raw);
      if lowered == "auto" then autoValue.GetOr(false)
      else if lowered == "true" then true
      else false
  }

  /** The decision only depends on the value up to ASCII case. */
  lemma GetEnvAsBooleanIgnoresCase(env: Env, name: string, other: string, autoValue: Option<bool>)
    requires name in env && LowerAscii(other) == LowerAscii(env[name])
    ensures GetEnvAsBoolean(env[name := other], name, autoValue) == GetEnvAsBoolean(env, name, autoValue)
  {
  }

  /** `"auto"` in any case with no `autoValue` is false; with one, it is that value. */
  lemma AutoDefersToAutoValue(env: Env, name: string, autoValue: Option<bool>)
    requires name in env && LowerAscii(env[name]) == "auto"
    ensures GetEnvAsBoolean(env, name, autoValue) == autoValue.GetOr(false)
  {
  }

  /** `"TRUE"`, `"True"` and `"true"` all read as true. */
  lemma TrueInAnyCase(env: Env, name: string)
    requires name in env && env[name] in {"TRUE", "True", "true"}
    ensures GetEnvAsBoolean(env, name)
  {
    assert LowerAscii(env[name]) == "true";
  }
}
