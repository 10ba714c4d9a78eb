/**
 * The in-memory response cache: a dictionary of at most `maxSize` entries,
 * kept in insertion order, whose entries may carry an expiry time, and the
 * manager's hit-or-compute operation over it.
 *
 * The clock is a parameter `now` (the value `time.time()` returns at that
 * call), and `compute_fn` is represented by the value it returns when called.
 */
module Cache {
  import opened Wrappers
  import opened Seqs

  /** A cached value and the time it expires; `None` means it never expires. */
  datatype Entry<V> = Entry(value: V, expiry: Option<real>)

  /**
   * `expiry and now > expiry`. Python's truthiness makes an expiry of 0 count
   * as no expiry at all.
   */
  predicate Expired<V>(e: Entry<V>, now: real)
  {
    e.expiry.Some? && e.expiry.value != 0.0 && now > e.expiry.value
  }

  /** `now + ttl_seconds` when the TTL is truthy (present and non-zero), `None` otherwise. */
  function ExpiryFor(ttl: Option<real>, now: real): (expiry: Option<real>)
    ensures expiry.None? <==> ttl.None? || ttl.value == 0.0
    ensures expiry.Some? ==> expiry.value - now == ttl.value
  {
    if ttl.Some? && ttl.value != 0.0 then Some(now + ttl.value) else None
  }

  /** `s` with `k` taken out, everything else in its order. */
  function Without(s: seq<string>, k: string): (r: seq<string>)
    ensures |r| <= |s|
    ensures forall x :: x in r <==> x in s && x != k
    ensures Distinct(s) ==> Distinct(r)
    ensures k !in s ==> r == s
    ensures Distinct(s) && k in s ==> r == RemoveAt(s, IndexIn(s, k))
  {
    if s == [] then []
    else if s[0] == k then
      assert Distinct(s) ==> k !in s[1..];
      Without(s[1..], k)
    else
      var rest := Without(s[1..], k);
      assert Distinct(s) ==> s[0] !in s[1..];
      if k in s then
        RemoveFirstCons(s, k);
        [s[0]] + rest
      else
        [s[0]] + rest
  }

  /** `InMemoryCacheBackend`: the dictionary `cache`, its key order made explicit. */
  class InMemoryCache<V> {
    /** The keys of `cache` in insertion order, oldest first. */
    var order: seq<string>
    var entries: map<string, Entry<V>>
    const maxSize: int

    /** The key order lists each key once, and the cache never holds more than `maxSize` entries. */
    ghost predicate Valid()
      reads this
    {
      && Distinct(order)
      && (forall k :: k in entries <==> k in order)
      && (|order| <= maxSize || order == [])
    }

    constructor (maxSize: int)
      ensures Valid() && this.maxSize == maxSize
      ensures order == [] && entries == map[]
    {
      this.maxSize := maxSize;
      order := [];
      entries := map[];
    }

    /**
     * `get(key)`: the value of a live entry; `None` for an absent key, and for
     * an expired one, which is deleted.
     */
    method Get(key: string, now: real) returns (r: Option<V>)
      requires Valid()
      modifies this
      ensures Valid()
      ensures key !in old(entries) ==> r == None && entries == old(entries) && order == old(order)
      ensures key in old(entries) && Expired(old(entries)[key], now) ==>
        r == None && entries == old(entries) - {key} && order == Without(old(order), key)
      ensures key in old(entries) && !Expired(old(entries)[key], now) ==>
        r == Some(old(entries)[key].value) && entries == old(entries) && order == old(order)
    {
      if key !in entries {
        return None;
      }
      var entry := entries[key];
      if entry.expiry.Some? && entry.expiry.value != 0.0 && now > entry.expiry.value {
        entries := entries - {key};
        order := Without(order, key);
        return None;
      }
      r := Some(entry.value);
    }

    /**
     * `set(key, value, ttl_seconds)`. When the cache is full the oldest key is
     * evicted first, even if `key` is already present; an existing key keeps
     * its place in the order. With `maxSize <= 0` the eviction indexes an
     * empty key list and raises (`ok` is false, nothing changes).
     */
    method Set(key: string, value: V, ttl: Option<real>, now: real) returns (ok: bool)
      requires Valid()
      modifies this
      ensures Valid() && (ok ==> |order| <= maxSize)
      ensures ok <==> !(|old(order)| >= maxSize && old(order) == [])
      ensures !ok ==> entries == old(entries) && order == old(order)
      ensures ok ==>
        var full := |old(order)| >= maxSize;
        var kept := if full then old(order)[1..] else old(order);
        var survivors := if full then old(entries) - {old(order)[0]} else old(entries);
        && entries == survivors[key := Entry(value, ExpiryFor(ttl, now))]
        && order == (if key in kept then kept else kept + [key])
    {
      if |order| >= maxSize {
        if order == [] {
          return false;
        }
        var oldestKey := order[0];
        DistinctTail(order);
        entries := entries - {oldestKey};
        order := order[1..];
      }
      var expiry: Option<real> := None;
      if ttl.Some? && ttl.value != 0.0 {
        expiry := Some(now + ttl.value);
      }
      if key !in entries {
        DistinctAppend(order, key);
        order := order + [key];
      }
      entries := entries[key := Entry(value, expiry)];
      ok := true;
    }

    /** `delete(key)`: true exactly when the key was present; it is absent afterwards. */
    method Delete(key: string) returns (existed: bool)
      requires Valid()
      modifies this
      ensures Valid()
      ensures existed <==> key in old(entries)
      ensures entries == old(entries) - {key} && order == Without(old(order), key)
    {
      if key in entries {
        entries := entries - {key};
        order := Without(order, key);
        return true;
      }
      existed := false;
    }

    /** `clear()` */
    method Clear() returns (ok: bool)
      requires Valid()
      modifies this
      ensures Valid() && ok
      ensures entries == map[] && order == []
    {
      entries := map[];
      order := [];
      ok := true;
    }

    /** `exists(key)`, that is `get(key) is not None`, with the same effect on an expired entry. */
    method Exists(key: string, now: real) returns (b: bool)
      requires Valid()
      modifies this
      ensures Valid()
      ensures b <==> key in old(entries) && !Expired(old(entries)[key], now)
      ensures b || key !in old(entries) ==> entries == old(entries) && order == old(order)
      ensures !b && key in old(entries) ==>
        entries == old(entries) - {key} && order == Without(old(order), key)
    {
      var r := Get(key, now);
      b := r.Some?;
    }
  }

  /** `CacheManager` over the in-memory backend. */
  class CacheManager<V> {
    const backend: InMemoryCache<V>

    /** `backend or InMemoryCacheBackend()`: a given backend, or a fresh one holding up to 1000 entries. */
    constructor (backend: Option<InMemoryCache<V>>)
      requires backend.Some? ==> backend.value.Valid()
      ensures backend.Some? ==> this.backend == backend.value
      ensures backend.None? ==> fresh(this.backend) && this.backend.maxSize == 1000
      ensures this.backend.Valid()
    {
      if backend.Some? {
        this.backend := backend.value;
      } else {
        this.backend := new InMemoryCache(1000);
      }
    }

    /**
     * `get_cached_or_compute(key, compute_fn, ttl_seconds)`. On a hit it returns
     * the cached value and `compute_fn` is not called; on a miss it is called
     * once and its result is stored and returned. `None` is the IndexError a
     * backend with `maxSize <= 0` raises when storing.
     */
    method GetCachedOrCompute(key: string, computed: V, ttl: Option<real>, now: real)
      returns (r: Option<V>, called: bool)
      requires backend.Valid()
      modifies backend
      ensures backend.Valid()
      ensures var hit := key in old(backend.entries) && !Expired(old(backend.entries)[key], now);
        && (called <==> !hit)
        && (hit ==>
              r == Some(old(backend.entries)[key].value)
              && backend.entries == old(backend.entries) && backend.order == old(backend.order))
        && (!hit ==> (r.None? <==> backend.maxSize <= 0))
        && (r.Some? && !hit ==>
              r == Some(computed) && key in backend.entries
              && backend.entries[key] == Entry(computed, ExpiryFor(ttl, now)))
    ensures var hit := key in old(backend.entries) && !Expired(old(backend.entries)[key], now);
        // on a miss, `get` has dropped an expired entry, then `set` evicts and stores
        var entries1 := if key in old(backend.entries) then old(backend.entries) - {key} else old(backend.entries);
        var order1 := if key in old(backend.entries) then Without(old(backend.order), key) else old(backend.order);
        && (!hit && r.None? ==> backend.entries == entries1 && backend.order == order1)
        && (!hit && r.Some? ==>
              var full := |order1| >= backend.maxSize;
              var kept := if full then order1[1..] else order1;
              var survivors := if full then entries1 - {order1[0]} else entries1;
              && backend.entries == survivors[key := Entry(computed, ExpiryFor(ttl, now))]
              && backend.order == (if key in kept then kept else kept + [key]))
    {
      var cached := backend.Get(key, now);
      if cached.Some? {
        return cached, false;
      }
      called := true;
      var value := computed;
      var ok := backend.Set(key, value, ttl, now);
      if !ok {
        return None, called;
      }
      r := Some(value);
    }
  }
}
