/**
 * The application's configuration, read from the process environment (passed in as a map):
 * each setting with its fallback, the required-variable check and the run mode.
 */
module Environment {
  import opened Wrappers
  import opened Text

  /** The process environment: variable name to value. */
  type Env = map<string, string>

  /** `process.env[name] || fallback`: an unset or empty variable takes the fallback. */
  function OrDefault(env: Env, name: string, fallback: string): string {
    if name in env && env[name] != [] then env[name] else fallback
  }

  /** `parseInt(process.env[name] || fallback, 10)`; `None` stands for `NaN`. */
  function NumberOrDefault(env: Env, name: string, fallback: string): Option<int> {
    ParseInt(OrDefault(env, name, fallback))
  }

  /** The static settings of `Environment`, in source order. */
  datatype Config = Config(
    port: Option<int>,
    nodeEnv: string,
    postgresHost: string,
    postgresPort: Option<int>,
    postgresUser: string,
    postgresPassword: string,
    postgresDb: string,
    bcryptSaltRounds: Option<int>,
    stripeSecretKey: string,
    stripeWebhookSecret: string,
    redisHost: string,
    redisPort: Option<int>,
    redisPassword: string,
    redisDb: Option<int>,
    redisTtl: Option<int>,
    logLevel: string,
    rateLimitWindowMs: Option<int>,
    rateLimitMaxRequests: Option<int>,
    rateLimitStrictMaxRequests: Option<int>)
  {
    predicate IsProduction() { nodeEnv == "production" }
    predicate IsDevelopment() { nodeEnv == "development" }
  }

  /** Every setting with its fallback. */
  function Load(env: Env): Config {
    Config(
      NumberOrDefault(env, "PORT", "3000"),
      OrDefault(env, "NODE_ENV", "development"),
      OrDefault(env, "POSTGRES_HOST", "localhost"),
      NumberOrDefault(env, "POSTGRES_PORT", "5432"),
      OrDefault(env, "POSTGRES_USER", "postgres"),
      OrDefault(env, "POSTGRES_PASSWORD", "postgres"),
      OrDefault(env, "POSTGRES_DB", "ddd-user-api"),
      NumberOrDefault(env, "BCRYPT_SALT_ROUNDS", "10"),
      OrDefault(env, "STRIPE_SECRET_KEY", ""),
      OrDefault(env, "STRIPE_WEBHOOK_SECRET", ""),
      OrDefault(env, "REDIS_HOST", "localhost"),
      NumberOrDefault(env, "REDIS_PORT", "6379"),
      OrDefault(env, "REDIS_PASSWORD", ""),
      NumberOrDefault(env, "REDIS_DB", "0"),
      NumberOrDefault(env, "REDIS_TTL", "3600"),
      OrDefault(env, "LOG_LEVEL", "debug"),
      NumberOrDefault(env, "RATE_LIMIT_WINDOW_MS", "900000"),
      NumberOrDefault(env, "RATE_LIMIT_MAX_REQUESTS", "100"),
      NumberOrDefault(env, "RATE_LIMIT_STRICT_MAX_REQUESTS", "10"))
  }

  const PostgresVars: seq<string> :=
    ["POSTGRES_HOST", "POSTGRES_PORT", "POSTGRES_USER", "POSTGRES_PASSWORD", "POSTGRES_DB"]
  const StripeVars: seq<string> := ["STRIPE_SECRET_KEY", "STRIPE_WEBHOOK_SECRET"]
  const MissingPrefix := "Missing required environment variables: "

  /** The variables `validate` requires: the database ones, and the payment secrets in production. */
  function RequiredVars(env: Env): seq<string> {
    PostgresVars + (if Load(env).IsProduction() then StripeVars else [])
  }

  /** `!value || value.trim().length === 0`. */
  predicate IsMissing(env: Env, name: string) {
    name !in env || env[name] == [] || |Trim(env[name])| == 0
  }

  /** `names.filter(isMissing)`. */
  function MissingVars(env: Env, names: seq<string>): seq<string> {
    if names == [] then []
    else (if IsMissing(env, names[0]) then [names[0]] else []) + MissingVars(env, names[1..])
  }

  /** `Environment.validate`: one error naming every missing variable, or nothing. */
  function Validate(env: Env): Outcome {
    var missing := MissingVars(env, RequiredVars(env));
    if |missing| > 0 then Fail(MissingPrefix + Join(missing, ", ")) else Pass
  }

  // ---------------------------------------------------------------- properties

  /** A variable is missing exactly when it is unset or blank. */
  lemma IsMissingIffBlank(env: Env, name: string)
    ensures IsMissing(env, name) <==> name !in env || IsBlank(env[name])
  {
    if name in env {
      TrimEmptyIffBlank(env[name]);
    }
  }

  /** The filter keeps exactly the missing names. */
  lemma {:induction false} MissingVarsMembers(env: Env, names: seq<string>, name: string)
    ensures name in MissingVars(env, names) <==> name in names && IsMissing(env, name)
  {
    if names != [] {
      MissingVarsMembers(env, names[1..], name);
      assert names == [names[0]] + names[1..];
    }
  }

  /** The filter keeps list order: filtering a concatenation concatenates the filtered parts. */
  lemma {:induction false} MissingVarsConcat(env: Env, a: seq<string>, b: seq<string>)
    ensures MissingVars(env, a + b) == MissingVars(env, a) + MissingVars(env, b)
  {
    if a != [] {
      assert (a + b)[1..] == a[1..] + b;
      MissingVarsConcat(env, a[1..], b);
    } else {
      assert a + b == b;
    }
  }

  /** Outside production only the database variables are required; in production the payment secrets too. */
  lemma RequiredVarsByMode(env: Env)
    ensures !Load(env).IsProduction() ==> RequiredVars(env) == PostgresVars
    ensures Load(env).IsProduction() ==> RequiredVars(env) == PostgresVars + StripeVars
  {
  }

  /**
   * `validate` passes exactly when no required variable is missing; otherwise its one message
   * names the missing ones in list order.
   */
  lemma ValidatePassesIff(env: Env)
    ensures Validate(env) == Pass <==> forall name | name in RequiredVars(env) :: !IsMissing(env, name)
    ensures Validate(env).Fail? ==>
      Validate(env).message == MissingPrefix + Join(MissingVars(env, RequiredVars(env)), ", ")
  {
    var missing := MissingVars(env, RequiredVars(env));
    if |missing| > 0 {
      MissingVarsMembers(env, RequiredVars(env), missing[0]);
    } else {
      forall name | name in RequiredVars(env) ensures !IsMissing(env, name) {
        MissingVarsMembers(env, RequiredVars(env), name);
      }
    }
  }

  /** The two modes never hold together, and an unset mode is development. */
  lemma ModesExclusive(env: Env)
    ensures !(Load(env).IsProduction() && Load(env).IsDevelopment())
    ensures "NODE_ENV" !in env ==> Load(env).IsDevelopment()
  {
  }

  /** A numeric setting given as a numeral reads as that number. */
  lemma NumberSet(env: Env, name: string, fallback: string, n: nat)
    requires name in env && env[name] == NatToString(n)
    ensures NumberOrDefault(env, name, fallback) == Some(n)
  {
    ParseIntOfNatToString(n);
  }

  /** The variable is unset or empty, so `||` picks the fallback. */
  predicate Unset(env: Env, name: string) {
    name !in env || env[name] == []
  }

  /** A numeric setting left unset reads as its fallback. */
  lemma NumberUnset(env: Env, name: string, fallback: nat)
    requires Unset(env, name)
    ensures NumberOrDefault(env, name, NatToString(fallback)) == Some(fallback)
  {
    ParseIntOfNatToString(fallback);
  }

  /** Each text setting that is unset or empty takes its fallback. */
  lemma TextDefaults(env: Env)
    ensures var c := Load(env);
      (Unset(env, "NODE_ENV") ==> c.nodeEnv == "development") &&
      (Unset(env, "POSTGRES_HOST") ==> c.postgresHost == "localhost") &&
      (Unset(env, "POSTGRES_USER") ==> c.postgresUser == "postgres") &&
      (Unset(env, "POSTGRES_PASSWORD") ==> c.postgresPassword == "postgres") &&
      (Unset(env, "POSTGRES_DB") ==> c.postgresDb == "ddd-user-api") &&
      (Unset(env, "STRIPE_SECRET_KEY") ==> c.stripeSecretKey == "") &&
      (Unset(env, "STRIPE_WEBHOOK_SECRET") ==> c.stripeWebhookSecret == "") &&
      (Unset(env, "REDIS_HOST") ==> c.redisHost == "localhost") &&
      (Unset(env, "REDIS_PASSWORD") ==> c.redisPassword == "") &&
      (Unset(env, "LOG_LEVEL") ==> c.logLevel == "debug")
  {
  }

  /** The server's numeric settings that are unset or empty take their fallbacks. */
  lemma ServerNumberDefaults(env: Env)
    ensures var c := Load(env);
      (Unset(env, "PORT") ==> c.port == Some(3000)) &&
      (Unset(env, "POSTGRES_PORT") ==> c.postgresPort == Some(5432)) &&
      (Unset(env, "BCRYPT_SALT_ROUNDS") ==> c.bcryptSaltRounds == Some(10))
  {
    if Unset(env, "PORT") {
      assert NatToString(3000) == "3000";
      NumberUnset(env, "PORT", 3000);
    }
    if Unset(env, "POSTGRES_PORT") {
      assert NatToString(5432) == "5432";
      NumberUnset(env, "POSTGRES_PORT", 5432);
    }
    if Unset(env, "BCRYPT_SALT_ROUNDS") {
      assert NatToString(10) == "10";
      NumberUnset(env, "BCRYPT_SALT_ROUNDS", 10);
    }
  }

  /** The cache's numeric settings that are unset or empty take their fallbacks. */
  lemma RedisNumberDefaults(env: Env)
    ensures var c := Load(env);
      (Unset(env, "REDIS_PORT") ==> c.redisPort == Some(6379)) &&
      (Unset(env, "REDIS_DB") ==> c.redisDb == Some(0)) &&
      (Unset(env, "REDIS_TTL") ==> c.redisTtl == Some(3600))
  {
    if Unset(env, "REDIS_PORT") {
      assert NatToString(6379) == "6379";
      NumberUnset(env, "REDIS_PORT", 6379);
    }
    if Unset(env, "REDIS_DB") {
      assert NatToString(0) == "0";
      NumberUnset(env, "REDIS_DB", 0);
    }
    if Unset(env, "REDIS_TTL") {
      assert NatToString(3600) == "3600";
      NumberUnset(env, "REDIS_TTL", 3600);
    }
  }

  /** The rate limits that are unset or empty take their fallbacks. */
  lemma RateLimitDefaults(env: Env)
    ensures var c := Load(env);
      (Unset(env, "RATE_LIMIT_WINDOW_MS") ==> c.rateLimitWindowMs == Some(900000)) &&
      (Unset(env, "RATE_LIMIT_MAX_REQUESTS") ==> c.rateLimitMaxRequests == Some(100)) &&
      (Unset(env, "RATE_LIMIT_STRICT_MAX_REQUESTS") ==> c.rateLimitStrictMaxRequests == Some(10))
  {
    if Unset(env, "RATE_LIMIT_WINDOW_MS") {
      assert NatToString(900000) == "900000";
      NumberUnset(env, "RATE_LIMIT_WINDOW_MS", 900000);
    }
    if Unset(env, "RATE_LIMIT_MAX_REQUESTS") {
      assert NatToString(100) == "100";
      NumberUnset(env, "RATE_LIMIT_MAX_REQUESTS", 100);
    }
    if Unset(env, "RATE_LIMIT_STRICT_MAX_REQUESTS") {
      assert NatToString(10) == "10";
      NumberUnset(env, "RATE_LIMIT_STRICT_MAX_REQUESTS", 10);
    }
  }
}
