/**
 * The cache-aside read of the external data: serve the cached value when it is truthy;
 * otherwise call the external service, write its answer to the cache under the one key the
 * handler uses, and return it.
 */
module FetchExternalData {
  import opened Wrappers
  import opened Json
  import opened RedisConnection
  import opened CacheRepository

  const CacheKey := "external_data"

  /** The external service, seen from the handler: each call answers with the value (or the failure) it is given, and is counted. */
  class ExternalDataService {
    var calls: nat

    constructor()
      ensures calls == 0
    {
      calls := 0;
    }

    /** `fetchData()`; `answer` is what the remote API returns this time. */
    method FetchData(answer: Result<Value>) returns (r: Result<Value>)
      modifies this
      ensures r == answer && calls == old(calls) + 1
    {
      calls := calls + 1;
      r := answer;
    }
  }

  /** What one `handle` call returns, the database after it, and how many times it called the service. */
  datatype Fetched = Fetched(result: Result<Value>, entries: Entries, serviceCalls: nat)

  /**
   * `handle()` over the database `entries` at time `now`: `getFault` and `setFault` are failures
   * of the cache's `GET` and `SET` commands, `answer` is what the service would return.
   */
  function Fetch(entries: Entries, hasClient: bool, defaultTtl: Option<int>, now: int, getFault: bool,
                 answer: Result<Value>, setFault: Option<string>): Fetched
  {
    var cached := Lookup(entries, hasClient, CacheKey, now, getFault);
    if Truthy(cached) then Fetched(Ok(cached), entries, 0)
    else match answer
      case Err(message) => Fetched(Err(message), entries, 1)
      case Ok(data) =>
        var written := Store(entries, hasClient, CacheKey, data, None, defaultTtl, now, setFault);
        match written.outcome
        case Fail(message) => Fetched(Err(message), written.entries, 1)
        case Pass => Fetched(Ok(data), written.entries, 1)
  }

  /** `FetchExternalDataCommandHandler`. */
  class FetchExternalDataHandler {
    const service: ExternalDataService
    const cache: RedisCache

    constructor(service: ExternalDataService, cache: RedisCache)
      ensures this.service == service && this.cache == cache
    {
      this.service := service;
      this.cache := cache;
    }

    /** `handle(command)` at time `now`. */
    method Handle(now: int, getFault: bool, answer: Result<Value>, setFault: Option<string>) returns (r: Result<Value>)
      modifies service, cache.keyspace
      ensures service.calls >= old(service.calls)
      ensures Fetched(r, cache.keyspace.entries, service.calls - old(service.calls)) ==
        Fetch(old(cache.keyspace.entries), cache.connection.client.Some?, cache.defaultTtl, now, getFault, answer, setFault)
    {
      var cached := cache.Get(CacheKey, now, getFault);
      if Truthy(cached) {
        return Ok(cached);
      }
      var data := service.FetchData(answer);
      if data.Err? {
        return Err(data.message);
      }
      var written := cache.Set(CacheKey, data.value, None, now, setFault);
      if written.Fail? {
        return Err(written.message);
      }
      r := Ok(data.value);
    }
  }

  // ---------------------------------------------------------------- properties

  /** A truthy cached value is returned as it is, without calling the service or writing the cache. */
  lemma HitSkipsService(entries: Entries, hasClient: bool, defaultTtl: Option<int>, now: int, getFault: bool,
                        answer: Result<Value>, setFault: Option<string>)
    requires Truthy(Lookup(entries, hasClient, CacheKey, now, getFault))
    ensures Fetch(entries, hasClient, defaultTtl, now, getFault, answer, setFault) ==
      Fetched(Ok(Lookup(entries, hasClient, CacheKey, now, getFault)), entries, 0)
  {
  }

  /**
   * A falsy cached value (a miss, a failed read, `null`, `0`, `''`, `false`) calls the service
   * once. A service failure is passed on and writes nothing; a failed write fails the call;
   * otherwise the answer is written under the key with the default TTL and returned.
   */
  lemma MissCallsServiceOnce(entries: Entries, hasClient: bool, defaultTtl: Option<int>, now: int, getFault: bool,
                             answer: Result<Value>, setFault: Option<string>)
    requires !Truthy(Lookup(entries, hasClient, CacheKey, now, getFault))
    ensures var f := Fetch(entries, hasClient, defaultTtl, now, getFault, answer, setFault);
      f.serviceCalls == 1 &&
      (answer.Err? ==> f.result == answer && f.entries == entries) &&
      (answer.Ok? && !hasClient ==> f.result == Err(NotConnectedMessage) && f.entries == entries) &&
      (answer.Ok? && hasClient && setFault.Some? ==> f.result == Err(setFault.value) && f.entries == entries) &&
      (answer.Ok? && hasClient && setFault.None? ==>
        f.result == answer &&
        f.entries == entries[CacheKey := Entry(Serialize(answer.value), Expiry(None, defaultTtl, now))])
  {
  }

  /** No key but the handler's own is ever written. */
  lemma OnlyItsKeyWritten(entries: Entries, hasClient: bool, defaultTtl: Option<int>, now: int, getFault: bool,
                          answer: Result<Value>, setFault: Option<string>)
    ensures var f := Fetch(entries, hasClient, defaultTtl, now, getFault, answer, setFault);
      forall k | k != CacheKey :: (k in f.entries <==> k in entries) && (k in entries ==> f.entries[k] == entries[k])
  {
    if answer.Ok? {
      StoreFrame(entries, hasClient, CacheKey, answer.value, None, defaultTtl, now, setFault);
    }
  }

  /**
   * After a call that fetched a truthy value that is not a string and cached it, a later call
   * before the entry expires is a hit: it returns that value and does not call the service.
   */
  lemma NextCallHits(entries: Entries, defaultTtl: Option<int>, now: int, getFault: bool, data: Value,
                     later: int, answer: Result<Value>, setFault: Option<string>)
    requires !data.Str? && Truthy(data)
    requires var first := Fetch(entries, true, defaultTtl, now, getFault, Ok(data), None);
      first.serviceCalls == 1
    requires Expiry(None, defaultTtl, now).None? || later < Expiry(None, defaultTtl, now).value
    ensures var first := Fetch(entries, true, defaultTtl, now, getFault, Ok(data), None);
      first.result == Ok(data) &&
      Fetch(first.entries, true, defaultTtl, later, false, answer, setFault) == Fetched(Ok(data), first.entries, 0)
  {
    var first := Fetch(entries, true, defaultTtl, now, getFault, Ok(data), None);
    StoreThenLookup(entries, CacheKey, data, None, defaultTtl, now, later);
    assert first.entries == Store(entries, true, CacheKey, data, None, defaultTtl, now, None).entries;
  }
}
