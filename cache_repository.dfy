/**
 * The Redis cache repository: values are written as text under a key, with an optional expiry,
 * and read back with a best-effort JSON decoding. The Redis database is a map from key to entry;
 * time (in seconds) and command failures are passed in.
 */
module CacheRepository {
  import opened Wrappers
  import opened Json
  import opened RedisConnection

  /** What Redis holds under a key: the text and, when set with an expiry, the second it expires at. */
  datatype Entry = Entry(text: string, expiresAt: Option<int>)

  type Entries = map<string, Entry>

  /** An entry is visible until its expiry second. */
  predicate Live(entry: Entry, now: int) {
    entry.expiresAt.None? || now < entry.expiresAt.value
  }

  /** Redis `GET key` at time `now`: the text, or nil for a key that is absent or has expired. */
  function Read(entries: Entries, key: string, now: int): (text: Option<string>)
    ensures text.Some? <==> key in entries && Live(entries[key], now)
    ensures text.Some? ==> text.value == entries[key].text
  {
    if key in entries && Live(entries[key], now) then Some(entries[key].text) else None
  }

  /** The text `set` writes: a string as it is, any other value as its JSON text. */
  function Serialize(value: Value): (text: string)
    ensures value.Str? ==> text == value.s
    ensures !value.Str? ==> Parse(text) == Some(value) && text != []
  {
    if value.Str? then value.s
    else
      ParseStringify(value);
      StringifyNotEmpty(value);
      Stringify(value)
  }

  /** What `get` makes of the text it read: nil and `''` are a miss; text that parses is decoded; any other text is returned as a string. */
  function Deserialize(text: Option<string>): (value: Value)
    ensures text.None? || text.value == [] ==> value == Null
    ensures text.Some? && text.value != [] && Parse(text.value).Some? ==> value == Parse(text.value).value
    ensures text.Some? && text.value != [] && Parse(text.value).None? ==> value == Str(text.value)
  {
    match text
    case None => Null
    case Some(t) =>
      if t == [] then Null
      else match Parse(t)
        case Some(v) => v
        case None => Str(t)
  }

  /** `ttl ?? defaultTTL`; `None` for the default stands for `NaN`. */
  function EffectiveTtl(ttl: Option<int>, defaultTtl: Option<int>): (r: Option<int>)
    ensures ttl.Some? ==> r == ttl
    ensures ttl.None? ==> r == defaultTtl
  {
    if ttl.Some? then ttl else defaultTtl
  }

  /** A positive effective TTL is written with `SETEX` and expires that many seconds after `now`; otherwise `SET` writes no expiry. */
  function Expiry(ttl: Option<int>, defaultTtl: Option<int>, now: int): (expiresAt: Option<int>)
    ensures expiresAt.Some? <==> EffectiveTtl(ttl, defaultTtl).Some? && EffectiveTtl(ttl, defaultTtl).value > 0
    ensures expiresAt.Some? ==> expiresAt.value == now + EffectiveTtl(ttl, defaultTtl).value
  {
    var effective := EffectiveTtl(ttl, defaultTtl);
    if effective.Some? && effective.value > 0 then Some(now + effective.value) else None
  }

  /** `get(key)`: a missing client or a failed command (`fault`) is absorbed as a miss. */
  function Lookup(entries: Entries, hasClient: bool, key: string, now: int, fault: bool): Value {
    if !hasClient || fault then Null else Deserialize(Read(entries, key, now))
  }

  /** A command's outcome and the database after it. */
  datatype Written = Written(outcome: Outcome, entries: Entries)

  /** `set(key, value, ttl)`: a missing client or a failed command is rethrown and writes nothing. */
  function Store(entries: Entries, hasClient: bool, key: string, value: Value, ttl: Option<int>,
                 defaultTtl: Option<int>, now: int, fault: Option<string>): Written
  {
    if !hasClient then Written(Fail(NotConnectedMessage), entries)
    else if fault.Some? then Written(Fail(fault.value), entries)
    else Written(Pass, entries[key := Entry(Serialize(value), Expiry(ttl, defaultTtl, now))])
  }

  /** `exists(key)`: true when Redis counts one live key; a missing client or a failed command gives false. */
  function Probe(entries: Entries, hasClient: bool, key: string, now: int, fault: bool): bool {
    hasClient && !fault && (if Read(entries, key, now).Some? then 1 else 0) == 1
  }

  /** The Redis database the client talks to. */
  class Keyspace {
    var entries: Entries

    constructor()
      ensures entries == map[]
    {
      entries := map[];
    }
  }

  /** `RedisCacheRepository`: the shared connection, the database behind it and the default TTL. */
  class RedisCache {
    const connection: Connection
    const keyspace: Keyspace
    const defaultTtl: Option<int>

    constructor(connection: Connection, keyspace: Keyspace, defaultTtl: Option<int>)
      ensures this.connection == connection && this.keyspace == keyspace && this.defaultTtl == defaultTtl
    {
      this.connection := connection;
      this.keyspace := keyspace;
      this.defaultTtl := defaultTtl;
    }

    /** `get(key)` at time `now`; `fault` is a failure of the `GET` command. */
    function Get(key: string, now: int, fault: bool): (value: Value)
      reads connection, keyspace
      ensures connection.client.None? || fault ==> value == Null
      ensures connection.client.Some? && !fault ==> value == Deserialize(Read(keyspace.entries, key, now))
    {
      Lookup(keyspace.entries, connection.client.Some?, key, now, fault)
    }

    /** `set(key, value, ttl)` at time `now`; `fault` is a failure of the `SET`/`SETEX` command. */
    method Set(key: string, value: Value, ttl: Option<int>, now: int, fault: Option<string>) returns (r: Outcome)
      modifies keyspace
      ensures Written(r, keyspace.entries) ==
        Store(old(keyspace.entries), connection.client.Some?, key, value, ttl, defaultTtl, now, fault)
    {
      var client := connection.GetClient();
      if client.Err? {
        return Fail(client.message);
      }
      var text := Serialize(value);
      var expiresAt := Expiry(ttl, defaultTtl, now);
      if fault.Some? {
        return Fail(fault.value);
      }
      keyspace.entries := keyspace.entries[key := Entry(text, expiresAt)];
      r := Pass;
    }

    /** `delete(key)`: `DEL` removes that key only; failures are rethrown and remove nothing. */
    method Delete(key: string, fault: Option<string>) returns (r: Outcome)
      modifies keyspace
      ensures connection.client.None? ==> r == Fail(NotConnectedMessage) && keyspace.entries == old(keyspace.entries)
      ensures connection.client.Some? && fault.Some? ==> r == Fail(fault.value) && keyspace.entries == old(keyspace.entries)
      ensures connection.client.Some? && fault.None? ==> r == Pass && keyspace.entries == old(keyspace.entries) - {key}
    {
      var client := connection.GetClient();
      if client.Err? {
        return Fail(client.message);
      }
      if fault.Some? {
        return Fail(fault.value);
      }
      keyspace.entries := keyspace.entries - {key};
      r := Pass;
    }

    /** `exists(key)` at time `now`. */
    function Exists(key: string, now: int, fault: bool): (found: bool)
      reads connection, keyspace
      ensures found <==> connection.client.Some? && !fault && key in keyspace.entries && Live(keyspace.entries[key], now)
    {
      ProbeIff(keyspace.entries, connection.client.Some?, key, now, fault);
      Probe(keyspace.entries, connection.client.Some?, key, now, fault)
    }

    /** `flush()`, through the connection's `flushDatabase`: `FLUSHDB` empties the database; failures are rethrown. */
    method Flush(fault: Option<string>) returns (r: Outcome)
      modifies keyspace
      ensures connection.client.None? ==> r == Fail(NotConnectedMessage) && keyspace.entries == old(keyspace.entries)
      ensures connection.client.Some? && fault.Some? ==> r == Fail(fault.value) && keyspace.entries == old(keyspace.entries)
      ensures connection.client.Some? && fault.None? ==> r == Pass && keyspace.entries == map[]
    {
      var client := connection.GetClient();
      if client.Err? {
        return Fail(client.message);
      }
      if fault.Some? {
        return Fail(fault.value);
      }
      keyspace.entries := map[];
      r := Pass;
    }
  }

  // ---------------------------------------------------------------- properties

  /** Every JSON text is non-empty. */
  lemma StringifyNotEmpty(value: Value)
    ensures Stringify(value) != []
  {
    match value
    case Null =>
    case Bool(b) =>
    case Num(n) =>
    case Str(s) =>
    case Arr(items) =>
    case Obj(members) =>
  }

  /**
   * `get` gives null for a key that is absent, expired or holds `''`, and for a read without a
   * client or with a failing command. (A live entry holding the text `null` reads as null too.)
   */
  lemma LookupMisses(entries: Entries, key: string, now: int)
    ensures Read(entries, key, now).None? || Read(entries, key, now).value == [] ==>
      Lookup(entries, true, key, now, false) == Null
    ensures forall fault: bool :: Lookup(entries, false, key, now, fault) == Null
    ensures Lookup(entries, true, key, now, true) == Null
  {
  }

  /** A live, non-empty text read with a client and no failure is decoded when it parses, and returned as a string when it does not. */
  lemma LookupDecodes(entries: Entries, key: string, now: int)
    requires key in entries && Live(entries[key], now) && entries[key].text != []
    ensures Parse(entries[key].text).Some? ==>
      Lookup(entries, true, key, now, false) == Parse(entries[key].text).value
    ensures Parse(entries[key].text).None? ==>
      Lookup(entries, true, key, now, false) == Str(entries[key].text)
  {
  }

  /** A value that is not a string, written and read back before it expires, comes back unchanged. */
  lemma StoreThenLookup(entries: Entries, key: string, value: Value, ttl: Option<int>, defaultTtl: Option<int>,
                        now: int, later: int)
    requires !value.Str?
    requires Expiry(ttl, defaultTtl, now).None? || later < Expiry(ttl, defaultTtl, now).value
    ensures var w := Store(entries, true, key, value, ttl, defaultTtl, now, None);
      w.outcome == Pass && Lookup(w.entries, true, key, later, false) == value
  {
  }

  /** A string is written as it is, so it comes back decoded when its text is JSON: the JSON text of any value reads as that value. */
  lemma JsonStringsComeBackParsed(entries: Entries, key: string, other: Value, now: int)
    ensures var w := Store(entries, true, key, Str(Stringify(other)), None, None, now, None);
      w.entries[key].text == Stringify(other) && Lookup(w.entries, true, key, now, false) == other
  {
    var text := Stringify(other);
    var w := Store(entries, true, key, Str(text), None, None, now, None);
    assert w.entries == entries[key := Entry(text, None)];
    ParseStringify(other);
    StringifyNotEmpty(other);
    LookupDecodes(w.entries, key, now);
  }

  /** The entry expires exactly when the effective TTL is positive, `ttl` when given and the default otherwise. */
  lemma ExpiryByTtl(ttl: Option<int>, defaultTtl: Option<int>, now: int)
    ensures ttl.Some? && ttl.value > 0 ==> Expiry(ttl, defaultTtl, now) == Some(now + ttl.value)
    ensures ttl.Some? && ttl.value <= 0 ==> Expiry(ttl, defaultTtl, now).None?
    ensures ttl.None? && defaultTtl.Some? && defaultTtl.value > 0 ==> Expiry(ttl, defaultTtl, now) == Some(now + defaultTtl.value)
    ensures ttl.None? && (defaultTtl.None? || defaultTtl.value <= 0) ==> Expiry(ttl, defaultTtl, now).None?
  {
  }

  /** `set` changes at most its own key, and a failed `set` changes nothing. */
  lemma StoreFrame(entries: Entries, hasClient: bool, key: string, value: Value, ttl: Option<int>,
                   defaultTtl: Option<int>, now: int, fault: Option<string>)
    ensures var w := Store(entries, hasClient, key, value, ttl, defaultTtl, now, fault);
      (w.outcome.Fail? <==> !hasClient || fault.Some?) &&
      (w.outcome.Fail? ==> w.entries == entries) &&
      forall k | k != key :: (k in w.entries <==> k in entries) && (k in entries ==> w.entries[k] == entries[k])
  {
  }

  /** `exists` is true exactly when the key is live and the client answered. */
  lemma ProbeIff(entries: Entries, hasClient: bool, key: string, now: int, fault: bool)
    ensures Probe(entries, hasClient, key, now, fault) <==>
      hasClient && !fault && key in entries && Live(entries[key], now)
  {
  }
}
