/**
 * The enterprise key cache: keys stored with an absolute expiry time. A
 * stale key is not served by `get` but is kept and marked expired, so that it
 * can still be used through `getExpired` when the key server is unreachable.
 *
 * The clock is the parameter `now` of each call.
 */
module KeyCache {
  import opened Wrappers
  import Collections

  datatype CachedKey = CachedKey(keyData: seq<bv8>, expiresAt: int, expired: bool)

  predicate IsExpired(k: CachedKey, now: int)
  {
    now > k.expiresAt
  }

  /**
   * A key is still valid at the very millisecond it expires, stale the
   * next one, and once stale it stays stale; the `expired` flag plays no
   * part.
   */
  lemma ExpiryBoundary(k: CachedKey, now: int, later: int)
    requires now <= later
    ensures !IsExpired(k, k.expiresAt) && IsExpired(k, k.expiresAt + 1)
    ensures IsExpired(k, now) ==> IsExpired(k, later)
    ensures IsExpired(k, now) == IsExpired(k.(expired := !k.expired), now)
  {
  }

  /** The result of `get` and the cache after it. */
  function Lookup(cache: map<string, CachedKey>, keyId: string, now: int): (r: (Option<seq<bv8>>, map<string, CachedKey>))
    ensures r.0.Some? <==> keyId in cache && now <= cache[keyId].expiresAt
    ensures r.0.Some? ==> r.0.value == cache[keyId].keyData
    ensures keyId !in cache || !IsExpired(cache[keyId], now) ==> r.1 == cache
    ensures keyId in cache && IsExpired(cache[keyId], now) ==> r.1 == cache[keyId := cache[keyId].(expired := true)]
    ensures r.1.Keys == cache.Keys
  {
    if keyId !in cache then (None, cache)
    else
      var cached := cache[keyId];
      if IsExpired(cached, now) then (None, cache[keyId := cached.(expired := true)])
      else (Some(cached.keyData), cache)
  }

  /** `getExpired`: the data of an entry that a `get` has already found stale. */
  function ExpiredData(cache: map<string, CachedKey>, keyId: string): (r: Option<seq<bv8>>)
    ensures r.Some? <==> keyId in cache && cache[keyId].expired
    ensures r.Some? ==> r.value == cache[keyId].keyData
  {
    if keyId in cache && cache[keyId].expired then Some(cache[keyId].keyData) else None
  }

  /** The cache after `evictExpired`: the entries still valid at `now`. */
  function Live(cache: map<string, CachedKey>, now: int): (r: map<string, CachedKey>)
    ensures forall k :: k in r <==> k in cache && !IsExpired(cache[k], now)
    ensures forall k :: k in r ==> r[k] == cache[k]
  {
    map k | k in cache && !IsExpired(cache[k], now) :: cache[k]
  }

  /**
   * Graceful degradation: a key that `get` refuses because it is stale is
   * still served by `getExpired` afterwards.
   */
  lemma StaleKeyDegrades(cache: map<string, CachedKey>, keyId: string, now: int)
    requires keyId in cache && IsExpired(cache[keyId], now)
    ensures Lookup(cache, keyId, now).0 == None
    ensures ExpiredData(Lookup(cache, keyId, now).1, keyId) == Some(cache[keyId].keyData)
  {
  }

  /** A key stored with time-to-live `ttl` is served until `now + ttl`, and not after. */
  lemma PutThenGet(cache: map<string, CachedKey>, keyId: string, data: seq<bv8>, ttl: int, now: int, later: int)
    ensures var c := cache[keyId := CachedKey(data, now + ttl, false)];
      (Lookup(c, keyId, later).0 == Some(data) <==> later <= now + ttl)
    ensures ExpiredData(cache[keyId := CachedKey(data, now + ttl, false)], keyId) == None
  {
  }

  /** A key still fresh at `now` survives eviction; a stale one, marked or not, is gone. */
  lemma EvictionKeepsFresh(cache: map<string, CachedKey>, keyId: string, now: int)
    requires keyId in cache
    ensures keyId in Live(cache, now) <==> now <= cache[keyId].expiresAt
    ensures keyId in Live(cache, now) ==> Lookup(Live(cache, now), keyId, now).0 == Some(cache[keyId].keyData)
  {
  }

  class KeyCache {
    var cache: map<string, CachedKey>

    constructor()
      ensures cache == map[]
    {
      cache := map[];
    }

    method Put(keyId: string, keyData: seq<bv8>, expirationMs: int, now: int)
      modifies this
      ensures cache == old(cache)[keyId := CachedKey(keyData, now + expirationMs, false)]
    {
      var expiresAt := now + expirationMs;
      cache := cache[keyId := CachedKey(keyData, expiresAt, false)];
    }

    method Get(keyId: string, now: int) returns (r: Option<seq<bv8>>)
      modifies this
      ensures (r, cache) == Lookup(old(cache), keyId, now)
    {
      if keyId !in cache {
        return None;
      }
      var cached := cache[keyId];
      if IsExpired(cached, now) {
        cache := cache[keyId := cached.(expired := true)];
        return None;
      }
      return Some(cached.keyData);
    }

    function GetExpired(keyId: string): (r: Option<seq<bv8>>)
      reads this
      ensures r == ExpiredData(cache, keyId)
      ensures r.Some? ==> keyId in cache
    {
      if keyId in cache && cache[keyId].expired then Some(cache[keyId].keyData) else None
    }

    method Remove(keyId: string)
      modifies this
      ensures cache == old(cache) - {keyId}
    {
      cache := cache - {keyId};
    }

    method Clear()
      modifies this
      ensures cache == map[]
    {
      cache := map[];
    }

    /** Collects the stale keys, then removes them one by one. */
    method EvictExpired(now: int)
      modifies this
      ensures cache == Live(old(cache), now)
    {
      var entries := cache;
      var expiredKeys := set k | k in entries && IsExpired(entries[k], now);
      var remaining := expiredKeys;
      var kept := entries;
      while remaining != {}
        invariant remaining <= expiredKeys
        invariant kept == map k | k in entries && (k !in expiredKeys || k in remaining) :: entries[k]
        decreases |remaining|
      {
        Collections.HasElement(remaining);
        var k :| k in remaining;
        kept := kept - {k};
        remaining := remaining - {k};
      }
      cache := kept;
    }
  }
}
