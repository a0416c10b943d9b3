# User API template: a verified model of its core

This project is a Dafny model of the behaviour-carrying parts of a Node.js clean-architecture
user API, with proofs about that behaviour. The model covers these parts:

- **Domain values.** The `Email` value object checks an address against
  `^[^\s@]+@[^\s@]+\.[^\s@]+$` and keeps it lower-cased and trimmed. The `Password` value
  object applies the strength rules in a fixed order and keeps only the hash. The `User` entity
  refuses a blank id and has a public projection without the password.
- **Registration.** `CreateUserCommandHandler.handle` runs its checks in order over a
  MongoDB-style user repository. The repository is a class holding the collection as a
  sequence of documents, with unique address and id keys and mapped store errors.
- **Cache-aside read.** `FetchExternalDataCommandHandler.handle` works over
  `RedisCacheRepository`. The Redis keyspace is a map from key to text and an optional expiry
  second. The external service is a class that counts its calls and answers with the value or
  failure it is given.
- **Redis connection.** The shared Redis connection is a two-field state machine: `client` and
  `isConnected`. A registry class holds the singleton instance, and the retry back-off is
  modelled too.
- **Rate limiting.** The model covers the choice of the rate limiter's store (Redis or
  in-memory), the resolution of `createRateLimiter` options, the `skip` predicate, the 429
  rejection, and the global and strict limiters.
- **Error handling.** The central error middleware classifies error messages by keyword into
  HTTP statuses (409, 400, 404, 401, 403, 500) and builds validation responses. The not-found
  handler answers unmatched routes.
- **Configuration.** The model covers the environment settings with their fallbacks,
  `Environment.validate`, the run modes, and `ExternalApiConfig`.

`JSON.stringify`/`JSON.parse` on the cache path are modelled by a small JSON codec over
integers, strings, booleans, null, arrays and objects. Its round trip
`Parse(Stringify(v)) == Some(v)` is proved. `parseInt` is modelled on decimal numerals.
Clocks, the ping and quit answers, store failures and the external service's reply are
parameters.

Files, one module each: `wrappers.dfy`, `text.dfy` (trimming, lower-casing, substring search,
joining, numerals), `json.dfy`, `email.dfy`, `password.dfy`, `user.dfy`,
`user_repository.dfy`, `create_user.dfy`, `environment.dfy`, `external_api_config.dfy`,
`redis_connection.dfy`, `rate_limit_store.dfy`, `rate_limiter.dfy`, `http.dfy`,
`error_handler.dfy`, `cache_repository.dfy`, `fetch_external_data.dfy`.

## Model

| member | source | states |
|---|---|---|
| Emails.WellFormedIffPattern | src/domain/valueObjects/Email.ts:11 | The position-by-position address test accepts exactly the language of the pattern: a non-empty local part, `@`, and a domain with an inner `.`, every part free of white space and `@`. |
| Emails.WellFormedLower | src/domain/valueObjects/Email.ts:19-22 | Lower-casing does not change whether a text matches the pattern. |
| Emails.CreateEmptyIffBlank | src/domain/valueObjects/Email.ts:31-36 | The constructor refuses with "Email cannot be empty" exactly when the input is blank. Because this check comes first, white-space-only input gets this message. |
| Emails.CreateAcceptsPattern | src/domain/valueObjects/Email.ts:31-41 | An address is accepted exactly when its trimmed input matches the pattern. It is refused with "Invalid email format" exactly when the input is not blank and does not match. |
| Emails.CreateNormalises | src/domain/valueObjects/Email.ts:19-22 | The stored value is the trimmed input in lower case. It has no surrounding white space and no capital letter, and it still matches the pattern. `getValue` and `toString` return it. |
| Emails.CreateIdempotent | src/domain/valueObjects/Email.ts:48-50 | Building an address from its own `getValue()` gives the same address. |
| Emails.CreateIgnoresCase | src/domain/valueObjects/Email.ts:21 | Lower-casing the input first changes neither the verdict nor the value. |
| Emails.CreateIgnoresPadding | src/domain/valueObjects/Email.ts:21-22 | White space around the input changes neither the verdict nor the value. |
| Emails.EqualsIffSameNormalForm | src/domain/valueObjects/Email.ts:58-60 | Two accepted inputs give `equals` addresses exactly when they agree after trimming and lower-casing. |
| Passwords.FromHash | src/domain/valueObjects/Password.ts:36-38 | `fromHash(h).getHash()` is `h`, and no rule is checked. |
| Passwords.LengthMessageText | src/domain/valueObjects/Password.ts:63-65 | The length refusal reads "Password must be at least 8 characters long". |
| Passwords.ValidateAcceptsIff | src/domain/valueObjects/Password.ts:58-82 | A password is accepted exactly when it is not blank, has at least 8 characters (untrimmed), and has an upper-case letter, a lower-case letter and a digit. |
| Passwords.ValidateFirstFailure | src/domain/valueObjects/Password.ts:58-82 | Each of the five refusals is reported exactly when every earlier guard passed and its own failed. The order is: empty, length, upper case, lower case, digit. |
| Passwords.MessagesDistinct | src/domain/valueObjects/Password.ts:60-80 | The refusals are different texts. |
| Passwords.CreateOnlyIfValid | src/domain/valueObjects/Password.ts:23-27 | `create` yields a password, holding the hash, exactly when validation passes. Otherwise it fails with the validation message. |
| Users.NewIffIdNotBlank | src/domain/entities/User.ts:44-48 | The constructor succeeds exactly when the id is not blank. Otherwise it fails with "User ID cannot be empty". |
| Users.GettersReturnArguments | src/domain/entities/User.ts:55-85 | The getters return exactly the constructor's arguments. |
| Users.PublicObjectHidesPassword | src/domain/entities/User.ts:101-111 | `toPublicObject` is exactly the id, the address value and the creation time. Users that differ only in their password project alike. |
| UserRepository.MongoUserRepository.constructor | src/infrastructure/persistence/MongoUserRepository.ts:27-52 | The repository starts with an empty collection that satisfies its key invariant. |
| UserRepository.MongoUserRepository.ExistsByEmail | src/infrastructure/persistence/MongoUserRepository.ts:94-100 | The answer is whether the count of documents with the address is positive. A rejected count reaches the caller with its message. The collection is unchanged either way, and the call is recorded. |
| UserRepository.MongoUserRepository.FindByEmail | src/infrastructure/persistence/MongoUserRepository.ts:60-70 | The result is null exactly when no document has the address. Otherwise it is a document with that address, converted to a user. |
| UserRepository.MongoUserRepository.FindById | src/infrastructure/persistence/MongoUserRepository.ts:78-86 | The result is null exactly when no document has the id. Otherwise it is a document with that id, converted to a user. |
| UserRepository.MongoUserRepository.Save | src/infrastructure/persistence/MongoUserRepository.ts:27-52 | The new collection and the result are those of the save outcome, and the unique-key invariant is kept. |
| UserRepository.CountPositiveIffStored | src/infrastructure/persistence/MongoUserRepository.ts:94-100 | The count is positive exactly when some stored document has the address. |
| UserRepository.FirstWithEmailFacts | src/infrastructure/persistence/MongoUserRepository.ts:60-70 | `findOne` by address finds nothing exactly when the count is zero. What it finds is the first document with the address. |
| UserRepository.FirstWithIdFacts | src/infrastructure/persistence/MongoUserRepository.ts:78-86 | `findById` finds nothing exactly when no document has the id. Otherwise it finds a stored document with that id. |
| UserRepository.FirstWithEmailAppended | src/infrastructure/persistence/MongoUserRepository.ts:60-70 | A document appended with an address no earlier document has is the one `findOne` finds. |
| UserRepository.SaveFailures | src/infrastructure/persistence/MongoUserRepository.ts:41-50 | Code 11000 or an address already stored fails with "Email already exists". Any other store error fails with "Failed to save user: " and its message. Neither failure changes the collection. |
| UserRepository.SaveSucceeds | src/infrastructure/persistence/MongoUserRepository.ts:29-37 | A conflict-free save appends one document. It returns a user with the store's `_id` (not the entity's id), the same address, the same hash and the same creation time. |
| UserRepository.SaveKeepsKeysUnique | src/infrastructure/persistence/MongoUserRepository.ts:27-52 | Every save keeps the address and the id unique across the collection. |
| UserRepository.SaveThenFind | src/infrastructure/persistence/MongoUserRepository.ts:109-119 | After a successful save, `findByEmail` finds the new document, and it converts to the user that `save` returned. |
| CreateUser.Handle | src/application/commands/CreateUserCommandHandler.ts:35-56 | The handler's result and the new collection are those of the registration function. Its repository calls are exactly the calls that function lists, and the repository invariant is kept. |
| CreateUser.InvalidEmailFailsFirst | src/application/commands/CreateUserCommandHandler.ts:37 | An invalid address fails with its own message before any repository call, and nothing is written. |
| CreateUser.CountFailurePropagates | src/application/commands/CreateUserCommandHandler.ts:40 | A rejected `existsByEmail` fails the call with the store's message, after that one call and before the password is checked. Nothing is written. |
| CreateUser.TakenEmailFails | src/application/commands/CreateUserCommandHandler.ts:40-43 | A stored address fails with "Email already exists", whatever the password. It makes one `existsByEmail` call and never calls `save`. |
| CreateUser.WeakPasswordFails | src/application/commands/CreateUserCommandHandler.ts:46 | A weak password on a free address fails with the password's message, after `existsByEmail` only. |
| CreateUser.SaveOnlyWhenAllChecksPass | src/application/commands/CreateUserCommandHandler.ts:50-55 | `save` is called exactly when the address is valid, `existsByEmail` answered that it is free, and the password is valid. It is called once, after `existsByEmail`, with id "temp-id", the normalised address and the hash. The handler returns what `save` returns. |
| CreateUser.UnchangedUnlessSaved | src/application/commands/CreateUserCommandHandler.ts:37-55 | Every failure leaves the collection unchanged. A success adds exactly the new document and returns the user under the store's id. |
| Environment.IsMissingIffBlank | src/infrastructure/config/environment.ts:148-151 | A variable is missing exactly when it is unset, empty or only white space. |
| Environment.MissingVarsMembers | src/infrastructure/config/environment.ts:148-151 | The filter keeps exactly the required names that are missing. |
| Environment.MissingVarsConcat | src/infrastructure/config/environment.ts:148-151 | The filter keeps list order: filtering a concatenation concatenates the filtered parts. |
| Environment.RequiredVarsByMode | src/infrastructure/config/environment.ts:136-146 | The five database variables are always required, and the two payment secrets are required only in production. |
| Environment.ValidatePassesIff | src/infrastructure/config/environment.ts:135-158 | `validate` passes exactly when no required variable is missing. Otherwise its one error names the missing variables in list order, joined by ", ". |
| Environment.ModesExclusive | src/infrastructure/config/environment.ts:163-172 | Production and development never hold together, and an unset NODE_ENV means development. |
| Environment.NumberSet | src/infrastructure/config/environment.ts:16 | A numeric variable set to the canonical decimal numeral of a natural number reads as that number. |
| Environment.NumberUnset | src/infrastructure/config/environment.ts:16 | A numeric variable that is unset or empty reads as its fallback. |
| Environment.TextDefaults | src/infrastructure/config/environment.ts:21-104 | Each text setting that is unset or empty takes its fallback, for example NODE_ENV "development" and REDIS_HOST "localhost". |
| Environment.ServerNumberDefaults | src/infrastructure/config/environment.ts:16-57 | When unset, PORT is 3000, POSTGRES_PORT is 5432 and BCRYPT_SALT_ROUNDS is 10. |
| Environment.RedisNumberDefaults | src/infrastructure/config/environment.ts:78-99 | When unset, REDIS_PORT is 6379, REDIS_DB is 0 and REDIS_TTL is 3600. |
| Environment.RateLimitDefaults | src/infrastructure/config/environment.ts:109-128 | When unset, the window is 900000 ms, the maximum is 100 and the strict maximum is 10. |
| ExternalApi.NewIff | src/infrastructure/config/externalApiConfig.ts:23-30 | The configuration is built exactly when the URL is present and not blank. It keeps the URL untrimmed and keeps the given timeout, or 5000 ms when none is given. Otherwise it fails with the EXTRA_API_KEY message. |
| ExternalApi.FromEnvironmentIff | src/infrastructure/config/externalApiConfig.ts:37-39 | Reading from the environment succeeds exactly when EXTRA_API_KEY is set and not blank. The result has that URL and the default timeout. |
| RedisConnection.Connection.constructor | src/infrastructure/persistence/redis/connection.ts:28-33 | A new connection has no client and is not connected. |
| RedisConnection.Connection.Connect | src/infrastructure/persistence/redis/connection.ts:41-91 | `connect` does nothing when already connected or when a client exists. Otherwise it creates the client with the options built from the configuration: host, port, db, the password only when it is not empty, and TLS in production. It is connected exactly when the ping succeeds. A failed ping fails with "Redis connection failed" and keeps the client. |
| RedisConnection.Connection.HandleEvent | src/infrastructure/persistence/redis/connection.ts:69-81 | `error` and `close` clear the flag, `reconnecting` leaves it unchanged, and the client is untouched. |
| RedisConnection.Connection.Disconnect | src/infrastructure/persistence/redis/connection.ts:111-125 | `disconnect` does nothing without a client. A successful quit clears the client and the flag. A failed quit is rethrown with the state unchanged. |
| RedisConnection.Registry.GetInstance | src/infrastructure/persistence/redis/connection.ts:28-33 | The first call creates a fresh, unconnected connection. Every later call returns that same one. |
| RedisConnection.StatusImpliesClient | src/infrastructure/persistence/redis/connection.ts:132-134 | On a valid connection, a true status means `getClient` succeeds with the stored client. |
| RedisConnection.RetryDelayBounded | src/infrastructure/persistence/redis/connection.ts:55-58 | The back-off never exceeds 2000 ms, equals `times * 50` below that, and is non-negative for non-negative `times`. |
| RedisConnection.RetryDelayMonotone | src/infrastructure/persistence/redis/connection.ts:55-58 | A later attempt never waits less. |
| RateLimitStore.CreateRedisRateLimitStore | src/infrastructure/rateLimit/RedisRateLimitStore.ts:19-51 | The factory returns the selection over the shared connection and keeps an existing connection. A connection it had to create gives no store. |
| RateLimitStore.StoreIffConnected | src/infrastructure/rateLimit/RedisRateLimitStore.ts:21-30 | On a valid connection, a Redis store is chosen exactly when the status is true. |
| RateLimiting.OptionsResolve | src/presentation/middlewares/rateLimiter.ts:29-41 | The window, the maximum, the message and the status each take the option when it is truthy and the default otherwise. The skip flags are set only when given as true. The store is the one selected at creation. |
| RateLimiting.ZeroFallsBack | src/presentation/middlewares/rateLimiter.ts:32-35 | A supplied 0 for the window, the maximum or the status falls back to the default. |
| RateLimiting.SkipIff | src/presentation/middlewares/rateLimiter.ts:52-58 | `skip` is true for every request exactly when either flag was set. Neither exported limiter skips. |
| RateLimiting.RejectionShape | src/presentation/middlewares/rateLimiter.ts:59-75 | The rejection has the configured status, `success: false`, the configured message, and a body `statusCode` equal to the status. |
| RateLimiting.LimitersReject429 | src/presentation/middlewares/rateLimiter.ts:86-96 | Both exported limiters answer 429, each with its own message. |
| RateLimiting.StrictDiffersOnlyInLimit | src/presentation/middlewares/rateLimiter.ts:93-96 | The strict limiter is the global one with another maximum and message. With the variables unset, its maximum is 10 against the global 100. |
| RateLimiting.LoadLimiters | src/presentation/middlewares/rateLimiter.ts:86-96 | Loading builds both limiters. Each takes the store selected from the shared connection at that moment. |
| ErrorHandling.Details | src/presentation/middlewares/errorHandler.ts:47-63 | Each validation item becomes, in order, one entry whose field is its path joined by ".". |
| ErrorHandling.ResponseShape | src/presentation/middlewares/errorHandler.ts:96-104 | Every response has `success: false`, repeats its status in the body and names the path. Details are present exactly for validation errors. |
| ErrorHandling.MessagesKept | src/presentation/middlewares/errorHandler.ts:66-75 | An `HttpError` keeps its status and message. Any other error keeps its own message and gets the classified status. |
| ErrorHandling.ValidationResponse | src/presentation/middlewares/errorHandler.ts:47-63 | A validation error is a 400 "Validation failed" with one detail per item. |
| ErrorHandling.ClassifyFirstMatch | src/presentation/middlewares/errorHandler.ts:77-92 | The keyword tests apply in order: 409, 400, 404, 401, 403. Each status is chosen exactly when every earlier test failed and its own matched, and 500 when none matched. |
| ErrorHandling.ValidationMessagesAreBadRequests | src/presentation/middlewares/errorHandler.ts:77-85 | Every refusal of the address, the password and the user id is classified 400. |
| ErrorHandling.DuplicateIsConflict | src/presentation/middlewares/errorHandler.ts:77-79 | "Email already exists" is classified 409. |
| ErrorHandling.NotFoundShape | src/presentation/middlewares/errorHandler.ts:113-123 | An unmatched route gets a 404 "Route METHOD PATH not found" naming the path. |
| Json.ParseStringify | src/infrastructure/persistence/RedisCacheRepository.ts:102-106 | Parsing the JSON text of any value gives back that value. |
| CacheRepository.Serialize | src/infrastructure/persistence/RedisCacheRepository.ts:126 | A string is stored as it is. Any other value is stored as non-empty text that parses back to it. |
| CacheRepository.ExpiryByTtl | src/infrastructure/persistence/RedisCacheRepository.ts:73-75 | Case by case: a positive explicit TTL wins, a non-positive one means no expiry, and the default applies only when none is given. |
| CacheRepository.LookupMisses | src/infrastructure/persistence/RedisCacheRepository.ts:89-110 | A key that is absent, expired or "" reads as null, and so does a read without a client or with a failing command. |
| CacheRepository.LookupDecodes | src/infrastructure/persistence/RedisCacheRepository.ts:102-106 | A live, non-empty text read with a client and no failure comes back as the value it parses to, or as that text in a string when it does not parse. |
| CacheRepository.StoreThenLookup | src/infrastructure/persistence/RedisCacheRepository.ts:89-141 | A non-string value written and read back before it expires comes back unchanged. |
| CacheRepository.JsonStringsComeBackParsed | src/infrastructure/persistence/RedisCacheRepository.ts:102-126 | A string holding JSON text is stored verbatim and comes back as the value the text denotes. |
| CacheRepository.StoreFrame | src/infrastructure/persistence/RedisCacheRepository.ts:123-141 | `set` fails exactly without a client or on a command failure, and then changes nothing. It never changes any key but its own. |
| CacheRepository.ProbeIff | src/infrastructure/persistence/RedisCacheRepository.ts:166-176 | `exists` is true exactly when the client answered and the key is live. |
| CacheRepository.RedisCache.Set | src/infrastructure/persistence/RedisCacheRepository.ts:123-141 | The outcome and the new keyspace are those of the store function: the serialised value with its expiry under the key, or a rethrown failure that writes nothing. |
| CacheRepository.RedisCache.Delete | src/infrastructure/persistence/RedisCacheRepository.ts:149-158 | `DEL` removes exactly that key. A missing client or a failed command is rethrown and removes nothing. |
| CacheRepository.RedisCache.Exists | src/infrastructure/persistence/RedisCacheRepository.ts:166-176 | `exists` is true exactly when the client answered and the key is present and not expired. |
| CacheRepository.RedisCache.Flush | src/infrastructure/persistence/RedisCacheRepository.ts:184-192 | `FLUSHDB` empties the keyspace. Failures are rethrown and change nothing. |
| FetchExternalData.ExternalDataService.FetchData | src/application/commands/FetchExternalDataCommandHandler.ts:42 | The service answers with the given reply, and its call count grows by one. |
| FetchExternalData.FetchExternalDataHandler.Handle | src/application/commands/FetchExternalDataCommandHandler.ts:34-48 | The result, the new keyspace and the number of service calls are those of the cache-aside function. The call count never decreases. |
| FetchExternalData.HitSkipsService | src/application/commands/FetchExternalDataCommandHandler.ts:36-39 | A truthy cached value is returned as it is, with no service call and no write. |
| FetchExternalData.MissCallsServiceOnce | src/application/commands/FetchExternalDataCommandHandler.ts:42-47 | A falsy cached value (miss, failed read, null, 0, "", false) leads to exactly one service call. A service failure propagates and writes nothing, and so does a failed write. Otherwise the answer is written under "external_data" with the default TTL and returned. |
| FetchExternalData.OnlyItsKeyWritten | src/application/commands/FetchExternalDataCommandHandler.ts:15 | No key other than "external_data" is ever changed. |
| FetchExternalData.NextCallHits | src/application/commands/FetchExternalDataCommandHandler.ts:36-47 | After a miss that cached a truthy non-string value, a later call before expiry returns it without calling the service. |

## Left out

- I/O and libraries are not modelled:
  - Logging, metrics and the SIGINT handler (`connection.ts:84-86`).
  - The ioredis, mongoose and axios network calls. Their outcomes are parameters: the ping, the quit, Redis command failures, the errors of `save` and of the `existsByEmail` count, and the service's reply.
  - bcrypt. The hash is an opaque `digest` parameter, used only after validation passes.
- Wall-clock time is not modelled. `createdAt`, the response `timestamp` and the cache's `now` are parameters, and Redis expiry is counted in whole seconds.
- Text handling differs from JavaScript in these ways:
  - Lower-casing is ASCII-only.
  - Lengths count characters, not UTF-16 code units.
  - White space is the JavaScript white-space and line-terminator set.
- `JSON.stringify`/`JSON.parse` are modelled by a codec over integers only: no floating-point numbers, no `undefined` members. `parseInt` is modelled on optional-sign decimal numerals and yields `None` for `NaN`. The codec also differs from `JSON.parse` in these ways:
  - A `\uXXXX` escape of a surrogate code unit fails to parse, even as part of a valid pair such as `\uD83D\uDE00`. Such cached text therefore reads back as the raw string where `JSON.parse` would decode it.
  - An object keeps all its members in text order. `JSON.parse` keeps only the last of duplicate keys, and JavaScript lists integer-like keys first.
  - Integers are exact at every size. JavaScript numbers are doubles, so integers beyond 2^53 are rounded.
- Environment timing is simplified. `Environment`'s static fields are read once at module load, while `validate` reads `process.env` at call time; the model reads both from one map.
- Joi's own rules are not modelled. Validation items arrive with their paths already as text.
- The rate limiter's library internals are not modelled: request counting, the key generator, rate-limit headers and the Redis store's command forwarding belong to `express-rate-limit` and `rate-limit-redis`.
- Exceptions outside the modelled paths are not modelled:
  - The Redis client's constructor throwing.
  - Mongoose setters and ObjectId cast errors in `findById`.
- UserRepository.MongoUserRepository.FindByEmail and UserRepository.MongoUserRepository.FindById do not model a rejection of `findOne`/`findById` by the driver. The source propagates such a rejection to the caller unchanged. These reads have no failure input, so the model gives them no error outcome. No modelled operation calls them.
  - A `ttl` argument of `NaN`. Only the default TTL may be `NaN`, where it reads as no expiry.
- A failed cache command is taken to apply nothing.
- `get` and `exists` only read the keyspace, so they are functions here rather than methods.
- `ICacheRepository`, `IUserRepository` and `IExternalDataService` are modelled by their single implementation each.
- `redisConnection`'s `flushDatabase` is modelled as CacheRepository.RedisCache.Flush.
- The MongoDB and TypeORM connection modules, the routes, the controllers and the application wiring are not part of this model.
