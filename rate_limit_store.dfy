/**
 * The choice of the rate limiter's store: the shared Redis connection when it is up, otherwise
 * `None`, which lets the limiter fall back to its in-memory store.
 */
module RateLimitStore {
  import opened Wrappers
  import opened RedisConnection

  const KeyPrefix := "rate-limit:"

  /** A Redis-backed store: the client it forwards commands to and the prefix of its keys. */
  datatype Store = RedisStore(client: Client, prefix: string)

  /**
   * `createRedisRateLimitStore` once it holds the connection: no store while the status is
   * false; a failing `getClient` is caught and gives no store either; otherwise a Redis store
   * over the connection's client.
   */
  function SelectStore(connection: Connection): (store: Option<Store>)
    reads connection
    ensures store.Some? <==> connection.isConnected && connection.client.Some?
    ensures store.Some? ==> store.value == RedisStore(connection.client.value, KeyPrefix)
  {
    if !connection.GetConnectionStatus() then None
    else match connection.GetClient()
      case Err(_) => None
      case Ok(client) => Some(RedisStore(client, KeyPrefix))
  }

  /**
   * `createRedisRateLimitStore()`: fetch the shared connection (creating it on first use) and
   * select the store. The connection itself is only read.
   */
  method CreateRedisRateLimitStore(registry: Registry) returns (store: Option<Store>)
    modifies registry
    ensures registry.instance != null
    ensures store == SelectStore(registry.instance)
    ensures old(registry.instance) != null ==> registry.instance == old(registry.instance)
    ensures old(registry.instance) == null ==> store.None?
  {
    var connection := registry.GetInstance();
    store := SelectStore(connection);
  }

  /** A valid connection gives a Redis store exactly when its status is true. */
  lemma StoreIffConnected(connection: Connection)
    requires connection.Valid()
    ensures SelectStore(connection).Some? <==> connection.GetConnectionStatus()
  {
  }
}
