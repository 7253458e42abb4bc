/** The three settings read from the process environment once at start-up:
    the API key (no default), the provider's base URL and the model name
    (both with fixed defaults). The environment is passed in as a map. */
module Configuration {
  import opened Wrappers

  type Env = map<string, string>

  const ApiKeyVar: string := "OPENAI_API_KEY"
  const BaseUrlVar: string := "OPENAI_BASE_URL"
  const ModelVar: string := "OPENAI_MODEL"

  const DefaultBaseUrl: string := "https://dashscope.aliyuncs.com/compatible-mode/v1"
  const DefaultModel: string := "qwen-plus"

  datatype Config = Config(apiKey: Option<string>, baseUrl: string, model: string)

  /** `os.getenv(key)`: the variable's value, or nothing when it is unset. */
  function GetEnv(env: Env, key: string): (r: Option<string>)
    ensures r.Some? <==> key in env
    ensures r.Some? ==> r.value == env[key]
  {
    if key in env then Some(env[key]) else None
  }

  /** `os.getenv(key, default)`: the default applies only to an unset
      variable; a variable set to "" yields "". */
  function GetEnvOr(env: Env, key: string, default: string): (r: string)
    ensures key in env ==> r == env[key]
    ensures key !in env ==> r == default
  {
    if key in env then env[key] else default
  }

  /** `Config()`: every field comes from its variable, falling back to the
      defaults for the two optional ones. Construction never fails. */
  function FromEnv(env: Env): (c: Config)
    ensures c.apiKey.Some? <==> ApiKeyVar in env
    ensures ApiKeyVar in env ==> c.apiKey.value == env[ApiKeyVar]
    ensures BaseUrlVar in env ==> c.baseUrl == env[BaseUrlVar]
    ensures BaseUrlVar !in env ==> c.baseUrl == DefaultBaseUrl
    ensures ModelVar in env ==> c.model == env[ModelVar]
    ensures ModelVar !in env ==> c.model == DefaultModel
  {
    Config(GetEnv(env, ApiKeyVar), GetEnvOr(env, BaseUrlVar, DefaultBaseUrl), GetEnvOr(env, ModelVar, DefaultModel))
  }

  /** `Config.validate()`: the API key is present and not empty. */
  predicate Validate(c: Config): (valid: bool)
    ensures c.apiKey.None? ==> !valid
    ensures c.apiKey == Some("") ==> !valid
    ensures c.apiKey.Some? && c.apiKey.value != "" ==> valid
  {
    c.apiKey.Some? && |c.apiKey.value| > 0
  }

  /** A configuration read from `env` is valid exactly when the API key
      variable is set to a non-empty string; set to "" it is invalid. */
  lemma ValidateFromEnv(env: Env)
    ensures Validate(FromEnv(env)) <==> ApiKeyVar in env && env[ApiKeyVar] != ""
  {
  }

  /** With the optional variables unset, the defaults are non-empty. */
  lemma DefaultsNonEmpty(env: Env)
    requires BaseUrlVar !in env && ModelVar !in env
    ensures |FromEnv(env).baseUrl| > 0 && |FromEnv(env).model| > 0
  {
  }

  /** The other variables have no influence on validity: whether a
      configuration is valid depends on the API key variable alone. */
  lemma ValidateOnlyReadsApiKey(env: Env, env': Env)
    requires ApiKeyVar in env <==> ApiKeyVar in env'
    requires ApiKeyVar in env ==> env[ApiKeyVar] == env'[ApiKeyVar]
    ensures Validate(FromEnv(env)) == Validate(FromEnv(env'))
  {
  }
}
