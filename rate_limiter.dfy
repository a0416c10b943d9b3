/**
 * The rate limiter's configuration: how `createRateLimiter` resolves its options against the
 * environment's defaults, the `skip` predicate, the rejection response, and the two limiters
 * the application builds. The counting itself belongs to the limiting library and is not
 * modelled.
 */
module RateLimiting {
  import opened Wrappers
  import opened Http
  import Environment
  import opened RedisConnection
  import opened RateLimitStore

  const DefaultMessage := "Too many requests, please try again later."
  const StrictMessage := "Too many requests to this endpoint, please try again later."

  /**
   * The optional settings of `createRateLimiter`; `None` is an omitted field (and, for the
   * numbers, also `NaN`). Calling it without options is calling it with every field `None`.
   */
  datatype Options = Options(
    windowMs: Option<int>,
    maxRequests: Option<int>,
    message: Option<string>,
    statusCode: Option<int>,
    skipSuccessfulRequests: Option<bool>,
    skipFailedRequests: Option<bool>)

  const NoOptions := Options(None, None, None, None, None, None)

  /** What the limiter is built with; `store` is `None` for the in-memory store. */
  datatype Limiter = Limiter(
    store: Option<Store>,
    windowMs: Option<int>,
    limit: Option<int>,
    message: string,
    statusCode: int,
    skipSuccessfulRequests: bool,
    skipFailedRequests: bool)

  /** JavaScript truthiness of a number: present, and neither `0` nor `NaN`. */
  predicate TruthyNumber(n: Option<int>) {
    n.Some? && n.value != 0
  }

  /** `a || b` on numbers. */
  function OrNumber(a: Option<int>, b: Option<int>): (r: Option<int>)
    ensures TruthyNumber(a) ==> r == a
    ensures !TruthyNumber(a) ==> r == b
  {
    if TruthyNumber(a) then a else b
  }

  /** `a || b` on texts: the empty text is falsy. */
  function OrText(a: Option<string>, b: string): (r: string)
    ensures a.Some? && a.value != [] ==> r == a.value
    ensures a.None? || a.value == [] ==> r == b
  {
    if a.Some? && a.value != [] then a.value else b
  }

  /** `createRateLimiter(options)` with the settings in `config` and the store selected at creation. */
  function CreateRateLimiter(options: Options, config: Environment.Config, store: Option<Store>): Limiter {
    Limiter(
      store,
      OrNumber(options.windowMs, config.rateLimitWindowMs),
      OrNumber(options.maxRequests, config.rateLimitMaxRequests),
      OrText(options.message, DefaultMessage),
      OrNumber(options.statusCode, Some(TooManyRequests)).value,
      options.skipSuccessfulRequests.GetOr(false),
      options.skipFailedRequests.GetOr(false))
  }

  /** The `skip` callback: every request is skipped as soon as either flag is set. */
  predicate Skip(limiter: Limiter) {
    limiter.skipSuccessfulRequests || limiter.skipFailedRequests
  }

  /** The `handler` callback: the response to a request on `path` over the limit, sent at `timestamp`. */
  function Rejection(limiter: Limiter, path: string, timestamp: string): ErrorResponse {
    Reject(limiter.statusCode, limiter.message, None, timestamp, path)
  }

  /** `globalRateLimiter`: every setting from the defaults. */
  function GlobalRateLimiter(config: Environment.Config, store: Option<Store>): Limiter {
    CreateRateLimiter(NoOptions, config, store)
  }

  /** `strictRateLimiter`: the strict maximum and its own message. */
  function StrictRateLimiter(config: Environment.Config, store: Option<Store>): Limiter {
    CreateRateLimiter(Options(None, config.rateLimitStrictMaxRequests, Some(StrictMessage), None, None, None),
                      config, store)
  }

  /**
   * Loading the module builds both limiters, one after the other; each selects its store from
   * the shared connection at that moment, and nothing in between changes it.
   */
  method LoadLimiters(registry: Registry, config: Environment.Config) returns (global: Limiter, strict: Limiter)
    modifies registry
    ensures registry.instance != null
    ensures global == GlobalRateLimiter(config, SelectStore(registry.instance))
    ensures strict == StrictRateLimiter(config, SelectStore(registry.instance))
    ensures old(registry.instance) != null ==> registry.instance == old(registry.instance)
  {
    var globalStore := CreateRedisRateLimitStore(registry);
    global := GlobalRateLimiter(config, globalStore);
    var strictStore := CreateRedisRateLimitStore(registry);
    strict := StrictRateLimiter(config, strictStore);
  }

  // ---------------------------------------------------------------- properties

  /**
   * Each number takes the option when it is truthy and the default otherwise, so a supplied `0`
   * falls back; the message falls back when omitted or empty; the flags default to `false`.
   */
  lemma OptionsResolve(options: Options, config: Environment.Config, store: Option<Store>)
    ensures var l := CreateRateLimiter(options, config, store);
      l.store == store &&
      l.windowMs == (if TruthyNumber(options.windowMs) then options.windowMs else config.rateLimitWindowMs) &&
      l.limit == (if TruthyNumber(options.maxRequests) then options.maxRequests else config.rateLimitMaxRequests) &&
      l.message == (if options.message.Some? && options.message.value != [] then options.message.value else DefaultMessage) &&
      l.statusCode == (if TruthyNumber(options.statusCode) then options.statusCode.value else TooManyRequests) &&
      (l.skipSuccessfulRequests <==> options.skipSuccessfulRequests == Some(true)) &&
      (l.skipFailedRequests <==> options.skipFailedRequests == Some(true))
  {
  }

  /** A supplied zero is the same as no value. */
  lemma ZeroFallsBack(options: Options, config: Environment.Config, store: Option<Store>)
    requires options.windowMs == Some(0) && options.maxRequests == Some(0) && options.statusCode == Some(0)
    ensures var l := CreateRateLimiter(options, config, store);
      l.windowMs == config.rateLimitWindowMs && l.limit == config.rateLimitMaxRequests &&
      l.statusCode == TooManyRequests
  {
  }

  /** A limiter skips every request exactly when one of the flags was set; by default it skips none. */
  lemma SkipIff(options: Options, config: Environment.Config, store: Option<Store>)
    ensures Skip(CreateRateLimiter(options, config, store)) <==>
      options.skipSuccessfulRequests == Some(true) || options.skipFailedRequests == Some(true)
    ensures !Skip(GlobalRateLimiter(config, store)) && !Skip(StrictRateLimiter(config, store))
  {
  }

  /** The rejection carries the configured status, in the response and in the body, and the configured message. */
  lemma RejectionShape(limiter: Limiter, path: string, timestamp: string)
    ensures var r := Rejection(limiter, path, timestamp);
      r.status == limiter.statusCode && !r.success && r.error.statusCode == limiter.statusCode &&
      r.error.message == limiter.message && r.error.path == path && r.error.details.None?
  {
  }

  /** Both limiters answer 429 with a non-empty message. */
  lemma LimitersReject429(config: Environment.Config, store: Option<Store>)
    ensures GlobalRateLimiter(config, store).statusCode == TooManyRequests
    ensures StrictRateLimiter(config, store).statusCode == TooManyRequests
    ensures GlobalRateLimiter(config, store).message == DefaultMessage
    ensures StrictRateLimiter(config, store).message == StrictMessage
  {
  }

  /**
   * The strict limiter is the global one with another maximum and message; with the
   * environment's rate-limit variables unset, its maximum 10 is below the global 100.
   */
  lemma StrictDiffersOnlyInLimit(env: Environment.Env, store: Option<Store>)
    ensures var config := Environment.Load(env);
      StrictRateLimiter(config, store) ==
        GlobalRateLimiter(config, store).(limit := OrNumber(config.rateLimitStrictMaxRequests, config.rateLimitMaxRequests),
                                          message := StrictMessage)
    ensures Environment.Unset(env, "RATE_LIMIT_MAX_REQUESTS") && Environment.Unset(env, "RATE_LIMIT_STRICT_MAX_REQUESTS") ==>
      StrictRateLimiter(Environment.Load(env), store).limit == Some(10) &&
      GlobalRateLimiter(Environment.Load(env), store).limit == Some(100)
  {
    Environment.RateLimitDefaults(env);
  }
}
