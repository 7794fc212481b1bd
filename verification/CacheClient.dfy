/** The cache helper itself: GetOrFetch, Invalidate and InvalidatePattern over the Redis client. */
module CacheClient {
  import opened Strings
  import opened ListCache

  /** GET fails, the stored text is not readable JSON, the loaded value cannot be encoded or read back, SET
      fails. */
  datatype Mishaps = Mishaps(getFails: bool, corrupt: bool, badValue: bool, setFails: bool)

  const NO_MISHAPS := Mishaps(false, false, false, false)

  class Redis {
    var now: nat
    var store: Store
    /** Whether InitRedis has run; without it every call falls through to the loader. */
    const connected: bool

    constructor (connected: bool)
      ensures this.connected == connected && store == map[] && now == 0
    {
      this.connected := connected;
      now, store := 0, map[];
    }

    /** Cache-aside. The loader runs only when the cache gives nothing that can be read; its error, or one
        of encoding its value, is returned and nothing is stored; a Redis failure never fails the request. */
    method GetOrFetch(key: string, loader: () -> Option<Listing>, mishaps: Mishaps)
      returns (value: Option<Listing>, hit: bool)
      modifies this`store
      ensures hit <==> connected && !mishaps.getFails && !mishaps.corrupt && key in old(store) && old(store)[key].Live(now)
      ensures hit ==> value == Some(old(store)[key].value) && store == old(store)
      ensures !hit ==> value == if mishaps.badValue then None else loader()
      ensures !hit ==>
                store == if value.Some? && connected && !mishaps.setFails
                         then old(store)[key := CacheEntry(value.value, now + TTL)] else old(store)
    {
      hit := false;
      if !connected {
        value := if mishaps.badValue then None else loader();
        return;
      }
      if !mishaps.getFails && key in store && store[key].Live(now) && !mishaps.corrupt {
        return Some(store[key].value), true;
      }
      value := loader();
      if value.None? || mishaps.badValue {
        return None, false;
      }
      if !mishaps.setFails {
        store := store[key := CacheEntry(value.value, now + TTL)];
      }
    }

    /** DEL of the given keys. */
    method Invalidate(keys: seq<string>, fails: bool)
      modifies this`store
      ensures store == if connected && !fails then old(store) - (set k | k in keys) else old(store)
    {
      if !connected || |keys| == 0 {
        assert |keys| == 0 ==> old(store) - (set k | k in keys) == old(store);
        return;
      }
      if !fails {
        store := store - (set k | k in keys);
      }
    }

    /** SCAN in whatever order the cursor gives, then one DEL; a failed SCAN deletes nothing. */
    method InvalidatePattern(prefix: string, scanFails: bool, delFails: bool) returns (keys: seq<string>)
      modifies this`store
      ensures forall k :: k in keys ==> prefix <= k && k in old(store)
      ensures connected && !scanFails ==> forall k :: k in old(store) && prefix <= k ==> k in keys
      ensures connected && !scanFails && !delFails ==>
                && (forall k :: k in store <==> k in old(store) && !(prefix <= k))
                && (forall k :: k in store ==> store[k] == old(store)[k])
      ensures !connected || scanFails || delFails ==> store == old(store)
    {
      keys := [];
      if !connected {
        return;
      }
      var cursor := set k | k in store && prefix <= k;
      while cursor != {}
        invariant cursor <= set k | k in store && prefix <= k
        invariant forall k :: k in keys ==> prefix <= k && k in store
        invariant forall k :: k in store && prefix <= k ==> k in cursor || k in keys
        decreases |cursor|
      {
        var k :| k in cursor;
        keys := keys + [k];
        cursor := cursor - {k};
      }
      if scanFails {
        return;
      }
      if |keys| > 0 {
        Invalidate(keys, delFails);
      }
    }
  }

  /** What InvalidatePattern collects when it is not interleaved is a legal SCAN answer of the step
      machine, so its SCAN and DEL are the machine's. */
  lemma PatternScanIsLegal(s: State, t: string, keys: seq<string>)
    requires forall k :: k in keys ==> Prefix(t) <= k
    requires forall k :: k in s.store && Prefix(t) <= k ==> k in keys
    ensures ScanMayReturn(s, s.store, t, set k | k in keys)
  {
  }

  /** A list read through the cache again before its TTL ends, with nothing in between, is a hit with
      the same value. */
  method ReadTwice(redis: Redis, key: string, loader: () -> Option<Listing>)
    returns (first: Option<Listing>, second: Option<Listing>)
    requires redis.connected && loader().Some?
    modifies redis`store
    ensures second == first
    ensures !(key in old(redis.store) && old(redis.store)[key].Live(redis.now)) ==> first == loader()
  {
    var hit: bool;
    first, hit := redis.GetOrFetch(key, loader, NO_MISHAPS);
    second, hit := redis.GetOrFetch(key, loader, NO_MISHAPS);
    assert hit;
  }
}
