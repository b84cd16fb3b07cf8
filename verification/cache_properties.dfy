/** Properties of the cache that relate several of its operations. */
module CacheProperties {
  import opened Wrappers
  import opened Strings
  import opened Storage
  import opened EntryCodec
  import opened Cache

  /** A service name that cannot run into the `-` separating it from the logical key. */
  predicate IsPlainServiceName(service: string) {
    forall i :: 0 <= i < |service| ==> service[i] != '-'
  }

  /** Where the service name and the separating dash sit inside a storage key. */
  lemma KeyLayout(service: string, key: string)
    requires IsPlainServiceName(service)
    ensures |GetCacheKey(service, key)| > |CachePrefix| + |service|
    ensures forall i | 0 <= i < |service| :: GetCacheKey(service, key)[|CachePrefix| + i] == service[i]
    ensures forall j | |CachePrefix| <= j <= |CachePrefix| + |service| ::
              GetCacheKey(service, key)[j] == '-' <==> j == |CachePrefix| + |service|
  {
    var k := GetCacheKey(service, key);
    assert k[|CachePrefix|..] == service + "-" + key;
  }

  /** A storage key that starts with another service's clear-prefix belongs to
      that service, as long as neither name contains a dash. */
  lemma ServicePrefixDetermined(s1: string, key: string, s2: string)
    requires IsPlainServiceName(s1) && IsPlainServiceName(s2)
    requires StartsWith(GetCacheKey(s1, key), GetCacheKey(s2, ""))
    ensures s1 == s2
  {
    var k := GetCacheKey(s1, key);
    var p := GetCacheKey(s2, "");
    var n := |CachePrefix|;
    KeyLayout(s1, key);
    KeyLayout(s2, "");
    var m := if |s1| <= |s2| then |s1| else |s2|;
    assert k[n + m] == p[n + m];
    assert |s1| == |s2|;
    assert forall i | 0 <= i < |s1| :: s1[i] == k[n + i] == p[n + i] == s2[i];
  }

  /** With dash-free service names, `getCacheKey` is injective in both arguments. */
  lemma CacheKeyInjective(s1: string, k1: string, s2: string, k2: string)
    requires IsPlainServiceName(s1) && IsPlainServiceName(s2)
    requires GetCacheKey(s1, k1) == GetCacheKey(s2, k2)
    ensures s1 == s2 && k1 == k2
  {
    var k := GetCacheKey(s1, k1);
    assert StartsWith(k, GetCacheKey(s2, "")) by {
      assert GetCacheKey(s2, k2) == GetCacheKey(s2, "") + k2;
    }
    ServicePrefixDetermined(s1, k1, s2);
    assert k1 == k[|CachePrefix| + |s1| + 1..];
  }

  /** A dash inside a service name breaks that isolation: two different
      service/key pairs then share one storage key. */
  lemma DashedServiceNamesCollide()
    ensures GetCacheKey("news", "top-stories") == GetCacheKey("news-top", "stories")
  {
  }

  /** `clearCache(s2)` leaves every entry of another dash-free service in place. */
  lemma ClearCacheIsolatesServices(store: Store, s1: string, s2: string, key: string)
    requires IsPlainServiceName(s1) && IsPlainServiceName(s2) && s1 != s2 && s2 != ""
    requires GetCacheKey(s1, key) in store
    ensures GetCacheKey(s1, key) in ClearCache(store, Some(s2))
    ensures ClearCache(store, Some(s2))[GetCacheKey(s1, key)] == store[GetCacheKey(s1, key)]
  {
    if StartsWith(GetCacheKey(s1, key), GetCacheKey(s2, "")) {
      ServicePrefixDetermined(s1, key, s2);
    }
  }

  /** `clearCache(s)` removes every entry of `s`. */
  lemma ClearCacheEmptiesService(store: Store, service: string, key: string)
    requires service != ""
    ensures GetCacheKey(service, key) !in ClearCache(store, Some(service))
  {
    assert GetCacheKey(service, key) == GetCacheKey(service, "") + key;
  }

  /** The lifetimes `setCache` resolves: each service's default when no
      truthy lifetime is given, one hour for any other service, and an
      explicit non-zero lifetime wherever it is given. */
  lemma ServiceDurations(service: string, expiresIn: int)
    ensures ResolveDuration("countries", None) == 43200000
    ensures ResolveDuration("news", None) == 1800000
    ensures ResolveDuration("weather", None) == 600000
    ensures ResolveDuration("crypto", None) == 120000
    ensures ResolveDuration("images", None) == 3600000 && ResolveDuration("jokes", None) == 3600000
    ensures ResolveDuration("sports", None) == 3600000 && ResolveDuration("sports", Some(0)) == 3600000
    ensures expiresIn != 0 ==> ResolveDuration(service, Some(expiresIn)) == expiresIn
  {
  }

  /** Reading a stored encoding: a hit while fresh (inclusive bound), and a
      miss that removes the key once expired. */
  lemma ReadEncodedEntry(store: Store, service: string, key: string, item: CacheItem, now: int)
    requires GetCacheKey(service, key) in store
    requires store[GetCacheKey(service, key)] == Encode(item)
    ensures now - item.timestamp <= item.expiresIn ==>
              GetCache(store, service, key, now) == Read(Some(item.data), store)
    ensures now - item.timestamp > item.expiresIn ==>
              GetCache(store, service, key, now) == Read(None, store - {GetCacheKey(service, key)})
  {
    DecodeEncode(item);
  }

  /** The only side effect a read can have is removing its own entry, and only
      when that entry decodes and has expired; a missing, empty or undecodable
      value leaves storage as it was. */
  lemma ReadSideEffectOnlyOnExpiry(store: Store, service: string, key: string, now: int)
    ensures GetCache(store, service, key, now).store != store <==>
              var k := GetCacheKey(service, key);
              k in store && store[k] != "" && Decode(store[k]).Some? && IsExpired(Decode(store[k]).value, now)
  {
    var k := GetCacheKey(service, key);
    if k in store && store[k] != "" && Decode(store[k]).Some? && IsExpired(Decode(store[k]).value, now) {
      assert k !in GetCache(store, service, key, now).store;
    }
  }

  /** For an entry that decodes, the load-time sweep and a read at the same
      instant agree on whether it is expired; an undecodable, non-empty value is
      removed by the sweep but left in place by a read. */
  lemma SweepAgreesWithRead(store: Store, service: string, key: string, now: int)
    requires GetCacheKey(service, key) in store
    ensures Decode(store[GetCacheKey(service, key)]).Some? ==>
              (GetCacheKey(service, key) !in ClearOldCache(store, now) <==>
               GetCache(store, service, key, now).store != store)
    ensures store[GetCacheKey(service, key)] != "" && Decode(store[GetCacheKey(service, key)]).None? ==>
              GetCacheKey(service, key) !in ClearOldCache(store, now)
              && GetCache(store, service, key, now).store == store
  {
    ReadSideEffectOnlyOnExpiry(store, service, key, now);
    var k := GetCacheKey(service, key);
    if Decode(store[k]).Some? && store[k] == "" {
      DecodeEncode(Decode(store[k]).value);
      EncodeDecode(store[k]);
    }
  }

  /** After the sweep, no read at the same instant has a side effect. */
  lemma SweptReadsAreClean(store: Store, service: string, key: string, now: int)
    ensures var swept := ClearOldCache(store, now);
            GetCache(swept, service, key, now).store == swept
  {
    var swept := ClearOldCache(store, now);
    ReadSideEffectOnlyOnExpiry(swept, service, key, now);
  }

  /** Sweeping twice at the same instant removes nothing more. */
  lemma ClearOldCacheIdempotent(store: Store, now: int)
    ensures ClearOldCache(ClearOldCache(store, now), now) == ClearOldCache(store, now)
  {
  }

  /** The load-time sweep over encoded entries keeps exactly the fresh ones:
      seeded with one expired and one fresh entry, only the fresh one remains. */
  lemma StartupSweepKeepsFresh(staleKey: string, expired: CacheItem, liveKey: string, live: CacheItem, now: int)
    requires IsCacheKey(staleKey) && IsCacheKey(liveKey) && staleKey != liveKey
    requires IsExpired(expired, now) && !IsExpired(live, now)
    ensures ClearOldCache(map[staleKey := Encode(expired), liveKey := Encode(live)], now)
            == map[liveKey := Encode(live)]
  {
    ExpiredEncodingIsStale(expired, now);
    LiveEncodingIsFresh(live, now);
    SweepOfPair(staleKey, Encode(expired), liveKey, Encode(live), now);
  }

  /** The sweep of a two-entry cache holding one stale and one fresh value. */
  lemma SweepOfPair(staleKey: string, stale: string, liveKey: string, value: string, now: int)
    requires IsCacheKey(staleKey) && staleKey != liveKey
    requires IsStale(stale, now) && !IsStale(value, now)
    ensures ClearOldCache(map[staleKey := stale, liveKey := value], now) == map[liveKey := value]
  {
    var store := map[staleKey := stale, liveKey := value];
    SweepDropsStale(store, staleKey, now);
    SweepKeepsUnstale(store, liveKey, now);
    var swept := ClearOldCache(store, now);
    SingleKeyMap(swept, liveKey, value);
  }

  /** A map whose only key is `k` is the one-entry map of `k`. */
  lemma SingleKeyMap(m: Store, k: string, v: string)
    requires k in m && m[k] == v && forall j | j in m :: j == k
    ensures m == map[k := v]
  {
  }

  /** The sweep removes a stale cache entry. */
  lemma SweepDropsStale(store: Store, k: string, now: int)
    requires k in store && IsCacheKey(k) && IsStale(store[k], now)
    ensures k !in ClearOldCache(store, now)
  {
  }

  /** The sweep keeps an entry that is not stale, with its value. */
  lemma SweepKeepsUnstale(store: Store, k: string, now: int)
    requires k in store && !IsStale(store[k], now)
    ensures k in ClearOldCache(store, now) && ClearOldCache(store, now)[k] == store[k]
  {
  }

  /** The encoding of an expired item is swept. */
  lemma ExpiredEncodingIsStale(item: CacheItem, now: int)
    requires IsExpired(item, now)
    ensures IsStale(Encode(item), now)
  {
    DecodeEncode(item);
  }

  /** The encoding of an item that has not expired is kept. */
  lemma LiveEncodingIsFresh(item: CacheItem, now: int)
    requires !IsExpired(item, now)
    ensures !IsStale(Encode(item), now)
  {
    DecodeEncode(item);
  }

  /** Expiry is permanent: a read that finds an entry expired would find it
      expired at every later instant too. */
  lemma ExpiryIsPermanent(item: CacheItem, t1: int, t2: int)
    requires t1 <= t2 && IsExpired(item, t1)
    ensures IsExpired(item, t2)
  {
  }
}
