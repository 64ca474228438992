/**
 * The plugin's cache manager with its in-memory backend. Each entry holds
 * a value and a deadline (a time in seconds); an entry is fresh while the
 * deadline is not before the current time. The database and file backends
 * hand the work to WordPress options and the file system; for them the
 * model only says which backend a call is routed to.
 */
module WpcaCache {
  import opened PhpValues

  const DefaultExpiration: int := 3600

  datatype CacheEntry = CacheEntry(value: Value, expiration: int)

  datatype Backend = Memory | Database | File

  /** The result of a call: computed by the memory backend, or handed to another one. */
  datatype Outcome<T> = Done(value: T) | Delegated(backend: Backend)

  /** The `switch ($type)` of get, set and delete: an unknown type uses memory. */
  function BackendOf(kind: string): (b: Backend)
    ensures b == Database <==> kind == "database"
    ensures b == File <==> kind == "file"
    ensures b == Memory <==> kind != "database" && kind != "file"
  {
    if kind == "database" then Database else if kind == "file" then File else Memory
  }

  /** An entry is dropped once its deadline is before `now`. */
  predicate Fresh(e: CacheEntry, now: int) { e.expiration >= now }

  /** What get_memory_cache returns. */
  function Read(store: map<string, CacheEntry>, key: string, default: Value, now: int): (r: Value)
    ensures key !in store ==> r == default
    ensures key in store && !Fresh(store[key], now) ==> r == default
  {
    if key in store && Fresh(store[key], now) then store[key].value else default
  }

  /** The store after get_memory_cache: an expired entry for the key is removed. */
  function Pruned(store: map<string, CacheEntry>, key: string, now: int): (r: map<string, CacheEntry>)
    ensures key in r ==> key in store && Fresh(store[key], now)
    ensures forall k :: k in store && k != key ==> k in r && r[k] == store[k]
    ensures forall k :: k in r ==> k in store && r[k] == store[k]
  {
    if key in store && !Fresh(store[key], now) then store - {key} else store
  }

  /** The expiration set uses: its own when positive, otherwise the configured one. */
  function Lifetime(expiration: int, configured: int): (r: int)
    ensures expiration > 0 ==> r == expiration
    ensures expiration <= 0 ==> r == configured
  {
    if expiration <= 0 then configured else expiration
  }

  /** `$settings['performance']` as an array, when it is set to one. */
  function Performance(settings: Value): (r: seq<Entry>)
    ensures |r| > 0 ==> settings.VArr? && IsSetKey(settings.entries, KStr("performance"))
  {
    if settings.VArr? && IsSetKey(settings.entries, KStr("performance")) then
      var p := Lookup(settings.entries, KStr("performance")).value;
      if p.VArr? then p.entries else []
    else []
  }

  /** cache_enabled after load_cache_settings: `(bool)` of the setting when it is set. */
  function LoadedEnabled(settings: Value, current: bool): (r: bool)
    ensures !IsSetKey(Performance(settings), KStr("cache_enabled")) ==> r == current
  {
    var p := Performance(settings);
    if IsSetKey(p, KStr("cache_enabled")) then Truthy(Lookup(p, KStr("cache_enabled")).value) else current
  }

  /** cache_expiration after load_cache_settings: `(int)` of the setting, 3600 when not positive. */
  function LoadedExpiration(settings: Value, current: int): (r: int)
    ensures r > 0
    ensures !IsSetKey(Performance(settings), KStr("cache_expiration")) && current > 0 ==> r == current
    ensures !IsSetKey(Performance(settings), KStr("cache_expiration")) && current <= 0 ==> r == DefaultExpiration
  {
    var p := Performance(settings);
    var e := if IsSetKey(p, KStr("cache_expiration")) then IntVal(Lookup(p, KStr("cache_expiration")).value) else current;
    if e <= 0 then DefaultExpiration else e
  }

  class Cache {
    var memory: map<string, CacheEntry>
    var enabled: bool
    var expiration: int

    /** The constructor's init: the defaults, then load_cache_settings. */
    constructor(settings: Value)
      ensures memory == map[]
      ensures enabled == LoadedEnabled(settings, true)
      ensures expiration == LoadedExpiration(settings, DefaultExpiration)
    {
      memory := map[];
      enabled := true;
      expiration := DefaultExpiration;
      new;
      LoadCacheSettings(settings);
    }

    method LoadCacheSettings(settings: Value)
      modifies this
      ensures enabled == LoadedEnabled(settings, old(enabled))
      ensures expiration == LoadedExpiration(settings, old(expiration))
      ensures memory == old(memory)
    {
      var p := Performance(settings);
      if IsSetKey(p, KStr("cache_enabled")) {
        enabled := Truthy(Lookup(p, KStr("cache_enabled")).value);
      }
      if IsSetKey(p, KStr("cache_expiration")) {
        expiration := IntVal(Lookup(p, KStr("cache_expiration")).value);
      }
      if expiration <= 0 {
        expiration := DefaultExpiration;
      }
    }

    /** get at time `now`. */
    method Get(key: string, default: Value, kind: string, now: int) returns (r: Outcome<Value>)
      modifies this
      ensures enabled == old(enabled) && expiration == old(expiration)
      ensures !enabled ==> r == Done(default) && memory == old(memory)
      ensures enabled && BackendOf(kind) == Memory ==>
        r == Done(Read(old(memory), key, default, now)) && memory == Pruned(old(memory), key, now)
      ensures enabled && BackendOf(kind) != Memory ==> r == Delegated(BackendOf(kind)) && memory == old(memory)
    {
      if !enabled {
        return Done(default);
      }
      var b := BackendOf(kind);
      if b != Memory {
        return Delegated(b);
      }
      if key in memory {
        var cache := memory[key];
        if cache.expiration < now {
          memory := memory - {key};
          return Done(default);
        }
        return Done(cache.value);
      }
      return Done(default);
    }

    /** set at time `now`. */
    method Set(key: string, value: Value, exp: int, kind: string, now: int) returns (r: Outcome<bool>)
      modifies this
      ensures enabled == old(enabled) && expiration == old(expiration)
      ensures !enabled ==> r == Done(false) && memory == old(memory)
      ensures enabled && BackendOf(kind) == Memory ==>
        r == Done(true) && memory == old(memory)[key := CacheEntry(value, now + Lifetime(exp, expiration))]
      ensures enabled && BackendOf(kind) != Memory ==> r == Delegated(BackendOf(kind)) && memory == old(memory)
    {
      if !enabled {
        return Done(false);
      }
      var e := exp;
      if e <= 0 {
        e := expiration;
      }
      var b := BackendOf(kind);
      if b != Memory {
        return Delegated(b);
      }
      memory := memory[key := CacheEntry(value, now + e)];
      return Done(true);
    }

    /** delete; it does not look at cache_enabled. */
    method Delete(key: string, kind: string) returns (r: Outcome<bool>)
      modifies this
      ensures enabled == old(enabled) && expiration == old(expiration)
      ensures BackendOf(kind) == Memory ==> r == Done(key in old(memory)) && memory == old(memory) - {key}
      ensures BackendOf(kind) != Memory ==> r == Delegated(BackendOf(kind)) && memory == old(memory)
    {
      var b := BackendOf(kind);
      if b != Memory {
        return Delegated(b);
      }
      if key in memory {
        memory := memory - {key};
        return Done(true);
      }
      return Done(false);
    }

    /** clear: "all" empties memory and goes on to the database backend; an unknown type fails. */
    method Clear(kind: string) returns (r: Outcome<bool>)
      modifies this
      ensures enabled == old(enabled) && expiration == old(expiration)
      ensures kind == "memory" ==> r == Done(true) && memory == map[]
      ensures kind == "all" ==> r == Delegated(Database) && memory == map[]
      ensures kind == "database" || kind == "file" ==> r == Delegated(BackendOf(kind)) && memory == old(memory)
      ensures kind != "memory" && kind != "all" && kind != "database" && kind != "file" ==>
        r == Done(false) && memory == old(memory)
    {
      if kind == "memory" {
        memory := map[];
        return Done(true);
      } else if kind == "database" || kind == "file" {
        return Delegated(BackendOf(kind));
      } else if kind == "all" {
        memory := map[];
        return Delegated(Database);
      }
      return Done(false);
    }

    method SetCacheEnabled(on: bool)
      modifies this
      ensures enabled == on && memory == old(memory) && expiration == old(expiration)
    {
      enabled := on;
    }

    method GetCacheEnabled() returns (on: bool)
      ensures on == enabled
    {
      on := enabled;
    }

    /** set_cache_expiration stores any value, even one that is not positive. */
    method SetCacheExpiration(seconds: int)
      modifies this
      ensures expiration == seconds && memory == old(memory) && enabled == old(enabled)
    {
      expiration := seconds;
    }

    method GetCacheExpiration() returns (seconds: int)
      ensures seconds == expiration
    {
      seconds := expiration;
    }

    /** set followed by get of the same key at the same time gives the value back. */
    method SetThenGet(key: string, value: Value, exp: int, kind: string, default: Value, now: int) returns (r: Outcome<Value>)
      requires enabled && BackendOf(kind) == Memory && Lifetime(exp, expiration) >= 0
      modifies this
      ensures r == Done(value)
    {
      var ok := Set(key, value, exp, kind, now);
      r := Get(key, default, kind, now);
      ReadAfterWrite(old(memory), key, value, now + Lifetime(exp, expiration), key, default, now);
    }
  }

  /** Reading a key after a write: the written value while its deadline holds; other keys are untouched. */
  lemma ReadAfterWrite(store: map<string, CacheEntry>, key: string, v: Value, deadline: int, k: string, d: Value, now: int)
    ensures k == key ==> Read(store[key := CacheEntry(v, deadline)], k, d, now) == (if now <= deadline then v else d)
    ensures k != key ==> Read(store[key := CacheEntry(v, deadline)], k, d, now) == Read(store, k, d, now)
  {
  }

  /** Pruning does not change what a read returns, and a fresh entry stays. */
  lemma ReadAfterPrune(store: map<string, CacheEntry>, key: string, k: string, d: Value, now: int)
    ensures Read(Pruned(store, key, now), k, d, now) == Read(store, k, d, now)
    ensures key in store && Fresh(store[key], now) ==> Pruned(store, key, now) == store
  {
  }

  /** A deleted key reads as the default. */
  lemma ReadAfterDelete(store: map<string, CacheEntry>, key: string, d: Value, now: int)
    ensures Read(store - {key}, key, d, now) == d
  {
  }
}
