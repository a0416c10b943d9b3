/**
 * The shared Redis connection: a client slot and a connected flag, driven by `connect`,
 * `disconnect` and the client's events. What the server answers (the ping, the quit) is
 * passed in.
 */
module RedisConnection {
  import opened Wrappers
  import Environment

  const ConnectFailedMessage := "Redis connection failed"
  const NotConnectedMessage := "Redis client not connected"

  /** The reconnection back-off: 50 ms per attempt, capped at 2 seconds. */
  const RetryStep := 50
  const MaxRetryDelay := 2000

  /** The options a client is created with. */
  datatype ClientOptions = ClientOptions(host: string, port: Option<int>, password: Option<string>, db: Option<int>, tls: bool)

  /** A Redis client, known by the options it was created with. */
  datatype Client = Client(options: ClientOptions)

  /** The client events the connection listens to. */
  datatype Event = ErrorEvent | CloseEvent | ReconnectingEvent

  /** The client options `connect` uses: an empty password is no password, and TLS is on in production. */
  function Options(config: Environment.Config): ClientOptions {
    ClientOptions(
      config.redisHost, config.redisPort,
      if config.redisPassword == [] then None else Some(config.redisPassword),
      config.redisDb, config.IsProduction())
  }

  /** `retryStrategy(times)`: `Math.min(times * 50, 2000)`. */
  function RetryDelay(times: int): int {
    if times * RetryStep < MaxRetryDelay then times * RetryStep else MaxRetryDelay
  }

  class Connection {
    var client: Option<Client>
    var isConnected: bool

    /** The connection is marked connected only while it has a client. */
    ghost predicate Valid()
      reads this
    {
      isConnected ==> client.Some?
    }

    constructor()
      ensures client.None? && !isConnected && Valid()
    {
      client := None;
      isConnected := false;
    }

    /**
     * `connect()`: nothing to do when already connected or when a client exists (even one whose
     * ping failed); otherwise create the client with the options built from `config`, and mark
     * the connection connected only if the ping succeeds.
     */
    method Connect(config: Environment.Config, pingSucceeds: bool) returns (r: Outcome)
      requires Valid()
      modifies this
      ensures Valid()
      ensures old(isConnected) || old(client).Some? ==>
        r == Pass && client == old(client) && isConnected == old(isConnected)
      ensures !old(isConnected) && old(client).None? ==>
        client == Some(Client(Options(config))) && isConnected == pingSucceeds &&
        r == (if pingSucceeds then Pass else Fail(ConnectFailedMessage))
    {
      if isConnected || client.Some? {
        return Pass;
      }
      client := Some(Client(Options(config)));
      if !pingSucceeds {
        return Fail(ConnectFailedMessage);
      }
      isConnected := true;
      r := Pass;
    }

    /** The `error` and `close` handlers clear the flag; `reconnecting` only logs. */
    method HandleEvent(event: Event)
      requires Valid()
      modifies this
      ensures Valid()
      ensures client == old(client)
      ensures isConnected == (if event == ReconnectingEvent then old(isConnected) else false)
    {
      match event
      case ErrorEvent => isConnected := false;
      case CloseEvent => isConnected := false;
      case ReconnectingEvent =>
    }

    /** `getClient()`: the client, or the not-connected error when there is none. */
    function GetClient(): (r: Result<Client>)
      reads this
      ensures r.Ok? <==> client.Some?
      ensures r.Ok? ==> r.value == client.value
      ensures r.Err? ==> r.message == NotConnectedMessage
    {
      match client
      case None => Err(NotConnectedMessage)
      case Some(c) => Ok(c)
    }

    /**
     * `disconnect()`: nothing to do without a client; a successful quit clears both fields; a
     * failed quit (`quitError`) is rethrown and changes nothing.
     */
    method Disconnect(quitError: Option<string>) returns (r: Outcome)
      requires Valid()
      modifies this
      ensures Valid()
      ensures old(client).None? ==> r == Pass && client == old(client) && isConnected == old(isConnected)
      ensures old(client).Some? && quitError.None? ==> r == Pass && client.None? && !isConnected
      ensures old(client).Some? && quitError.Some? ==>
        r == Fail(quitError.value) && client == old(client) && isConnected == old(isConnected)
    {
      if client.None? {
        return Pass;
      }
      if quitError.Some? {
        return Fail(quitError.value);
      }
      isConnected := false;
      client := None;
      r := Pass;
    }

    /** `getConnectionStatus()`: the flag. */
    function GetConnectionStatus(): bool
      reads this
    {
      isConnected
    }
  }

  /** The class-level `instance` slot behind `getInstance`. */
  class Registry {
    var instance: Connection?

    constructor()
      ensures instance == null
    {
      instance := null;
    }

    /** `getInstance()`: create the connection on first use, and return that same one ever after. */
    method GetInstance() returns (c: Connection)
      modifies this
      ensures instance == c
      ensures old(instance) != null ==> c == old(instance)
      ensures old(instance) == null ==> fresh(c) && c.client.None? && !c.isConnected && c.Valid()
    {
      if instance == null {
        instance := new Connection();
      }
      c := instance;
    }
  }

  /** While the connection is valid, a positive status means `getClient` succeeds. */
  lemma StatusImpliesClient(connection: Connection)
    requires connection.Valid()
    ensures connection.GetConnectionStatus() ==> connection.GetClient() == Ok(connection.client.value)
  {
  }

  // ---------------------------------------------------------------- retry strategy

  /** The delay never exceeds two seconds, and is `times * 50` below that. */
  lemma RetryDelayBounded(times: int)
    ensures RetryDelay(times) <= MaxRetryDelay
    ensures times * RetryStep <= MaxRetryDelay ==> RetryDelay(times) == times * RetryStep
    ensures times >= 0 ==> RetryDelay(times) >= 0
  {
  }

  /** A later attempt never waits less. */
  lemma RetryDelayMonotone(earlier: int, later: int)
    requires earlier <= later
    ensures RetryDelay(earlier) <= RetryDelay(later)
  {
  }
}
