/** The settings for calling the external service: its URL, checked once, and a request timeout. */
module ExternalApi {
  import opened Wrappers
  import opened Text
  import opened Environment

  const MissingUrlMessage := "EXTRA_API_KEY environment variable must be defined"
  const UrlVariable := "EXTRA_API_KEY"

  /** The request timeout, in milliseconds, when none is given. */
  const DefaultTimeout := 5000

  datatype ExternalApiConfig = ExternalApiConfig(apiUrl: string, timeout: int)

  /**
   * `new ExternalApiConfig(apiUrl?, timeout = 5000)`: refuses an absent or blank URL, and keeps
   * the URL as given (it is not trimmed). `None` is an argument left `undefined`.
   */
  function New(apiUrl: Option<string>, timeout: Option<int>): Result<ExternalApiConfig> {
    if apiUrl.None? || apiUrl.value == [] || Trim(apiUrl.value) == [] then Err(MissingUrlMessage)
    else Ok(ExternalApiConfig(apiUrl.value, timeout.GetOr(DefaultTimeout)))
  }

  /** `ExternalApiConfig.fromEnvironment()`: the URL from `EXTRA_API_KEY`, the default timeout. */
  function FromEnvironment(env: Env): Result<ExternalApiConfig> {
    New(if UrlVariable in env then Some(env[UrlVariable]) else None, None)
  }

  // ---------------------------------------------------------------- properties

  /**
   * A configuration is built exactly when the URL is present and not blank; it keeps the URL
   * verbatim and the given timeout, or 5000 when none is given.
   */
  lemma NewIff(apiUrl: Option<string>, timeout: Option<int>)
    ensures New(apiUrl, timeout).Ok? <==> apiUrl.Some? && !IsBlank(apiUrl.value)
    ensures New(apiUrl, timeout).Err? ==> New(apiUrl, timeout).message == MissingUrlMessage
    ensures New(apiUrl, timeout).Ok? ==>
      New(apiUrl, timeout).value.apiUrl == apiUrl.value &&
      New(apiUrl, timeout).value.timeout == (if timeout.Some? then timeout.value else DefaultTimeout)
  {
    if apiUrl.Some? {
      TrimEmptyIffBlank(apiUrl.value);
    }
  }

  /** Reading from the environment succeeds exactly when the variable is set and not blank, with the default timeout. */
  lemma FromEnvironmentIff(env: Env)
    ensures FromEnvironment(env).Ok? <==> UrlVariable in env && !IsMissing(env, UrlVariable)
    ensures FromEnvironment(env).Ok? ==>
      FromEnvironment(env).value == ExternalApiConfig(env[UrlVariable], DefaultTimeout)
  {
    if UrlVariable in env {
      TrimEmptyIffBlank(env[UrlVariable]);
      IsMissingIffBlank(env, UrlVariable);
    }
  }
}
