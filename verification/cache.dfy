/** The localStorage-backed TTL cache shared by every fetch service
    (src/utils/cache.ts). Storage is threaded through as a value, the clock is
    passed in, and how the medium answers each write is an input. */
module Cache {
  import opened Wrappers
  import opened Strings
  import opened Storage
  import opened EntryCodec
  import opened JsonText

  const CachePrefix: string := "opendata-canvas-"

  /** Serialised entries longer than this many characters are never stored (3 MiB). */
  const MaxEntryLength: nat := 3 * 1024 * 1024

  /** The lifetime used when neither the caller nor the service gives one (1 hour). */
  const FallbackDuration: int := 60 * 60 * 1000

  /** Logical keys of the `countries` service that hold region-filtered results. */
  const RegionKeyPrefix: string := "region-"

  /** How many of the largest entries the last eviction step removes. */
  const LargestEvictionCount: nat := 5

  /** `getCacheKey(service, key)`. */
  function GetCacheKey(service: string, key: string): (r: string)
    ensures StartsWith(r, CachePrefix)
    ensures r[|CachePrefix|..] == service + "-" + key
  {
    CachePrefix + service + "-" + key
  }

  /** Storage keys that belong to the cache (`key.startsWith(CACHE_PREFIX)`). */
  predicate IsCacheKey(k: string) {
    StartsWith(k, CachePrefix)
  }

  /** `DEFAULT_CACHE_DURATION[service]`, in milliseconds. */
  function DefaultDuration(service: string): (r: Option<int>)
    ensures r.Some? ==> r.value > 0
  {
    if service == "countries" then Some(12 * 60 * 60 * 1000)
    else if service == "news" then Some(30 * 60 * 1000)
    else if service == "weather" then Some(10 * 60 * 1000)
    else if service == "crypto" then Some(2 * 60 * 1000)
    else if service == "images" then Some(60 * 60 * 1000)
    else if service == "jokes" then Some(60 * 60 * 1000)
    else None
  }

  /** `expiresIn || DEFAULT_CACHE_DURATION[service] || 60 * 60 * 1000`: an
      explicit lifetime counts only when it is truthy, that is non-zero. */
  function ResolveDuration(service: string, expiresIn: Option<int>): (d: int)
    ensures d != 0
    ensures expiresIn.Some? && expiresIn.value != 0 ==> d == expiresIn.value
    ensures (expiresIn.None? || expiresIn.value == 0) ==>
              d == (if DefaultDuration(service).Some? then DefaultDuration(service).value else FallbackDuration)
    ensures (expiresIn.None? || expiresIn.value >= 0) ==> d > 0
  {
    if expiresIn.Some? && expiresIn.value != 0 then expiresIn.value
    else match DefaultDuration(service)
      case Some(d) => d
      case None => FallbackDuration
  }

  /** An entry is expired once its age exceeds its lifetime; an entry exactly
      `expiresIn` old is still fresh. */
  predicate IsExpired(item: CacheItem, now: int) {
    now - item.timestamp > item.expiresIn
  }

  /** The string `setCache` would try to store for `data` at time `now`. */
  function Serialize(data: JsonString, now: int, duration: int): string {
    Encode(CacheItem(data, now, duration))
  }

  // ---------------------------------------------------------------- read path

  /** What a read returns, together with the storage it leaves behind. */
  datatype Read = Read(data: Option<string>, store: Store)

  /** The body of `getCache` once the storage key is known. An absent or empty
      value and an undecodable value are misses that leave storage alone; an
      expired entry is a miss that removes the key; a fresh entry is a hit. */
  function ReadEntry(store: Store, cacheKey: string, now: int): (r: Read)
    ensures r.data.Some? ==> r.store == store
    ensures r.store == store || (cacheKey in store && r.store == store - {cacheKey})
    ensures r.data.Some? ==>
              cacheKey in store && Decode(store[cacheKey]).Some?
              && r.data.value == Decode(store[cacheKey]).value.data
              && !IsExpired(Decode(store[cacheKey]).value, now)
  {
    if cacheKey !in store || store[cacheKey] == "" then Read(None, store)
    else match Decode(store[cacheKey])
      case None => Read(None, store)
      case Some(item) =>
        if IsExpired(item, now) then Read(None, store - {cacheKey})
        else Read(Some(item.data), store)
  }

  /** `getCache(service, key)` at time `now`. */
  function GetCache(store: Store, service: string, key: string, now: int): (r: Read)
    ensures r.data.Some? ==> r.store == store
    ensures forall k | k in store && k != GetCacheKey(service, key) :: k in r.store && r.store[k] == store[k]
    ensures forall k | k in r.store :: k in store && r.store[k] == store[k]
  {
    ReadEntry(store, GetCacheKey(service, key), now)
  }

  // ---------------------------------------------------------------- sweeps

  /** Every storage key of a region-filtered `countries` entry starts with this. */
  function RegionCachePrefix(): string {
    GetCacheKey("countries", RegionKeyPrefix)
  }

  /** `clearCountryRegionCaches()`. */
  function ClearCountryRegionCaches(store: Store): (r: Store)
    ensures forall k :: k in r <==> k in store && !StartsWith(k, RegionCachePrefix())
    ensures forall k | k in r :: r[k] == store[k]
    ensures forall k | k in store && !IsCacheKey(k) :: k in r
  {
    RegionKeysAreCacheKeys();
    RemoveWhere(store, k => StartsWith(k, RegionCachePrefix()))
  }

  /** Region entries lie inside the cache's namespace. */
  lemma RegionKeysAreCacheKeys()
    ensures forall k | StartsWith(k, RegionCachePrefix()) :: IsCacheKey(k)
  {
    forall k | StartsWith(k, RegionCachePrefix()) {
      StartsWithTransitive(k, RegionCachePrefix(), CachePrefix);
    }
  }

  /** A stored value `clearOldCache` removes: non-empty and either not an
      entry at all or an expired one. Empty values are skipped by `if (cached)`. */
  predicate IsStale(value: string, now: int) {
    value != "" && (Decode(value).None? || IsExpired(Decode(value).value, now))
  }

  /** `clearOldCache()` at time `now`; it also runs once when the module loads. */
  function ClearOldCache(store: Store, now: int): (r: Store)
    ensures forall k | k in r :: k in store && r[k] == store[k]
    ensures forall k | k in store && !IsCacheKey(k) :: k in r
    ensures forall k | k in r && IsCacheKey(k) :: !IsStale(r[k], now)
    ensures forall k | k in store && !IsStale(store[k], now) :: k in r
  {
    map k | k in store && !(IsCacheKey(k) && IsStale(store[k], now)) :: store[k]
  }

  /** Cache entries `clearLargeCaches` ranks by size (`if (item)` skips empty values). */
  function Evictable(store: Store): set<string> {
    set k | k in store && IsCacheKey(k) && store[k] != ""
  }

  function Min(a: nat, b: nat): nat {
    if a <= b then a else b
  }

  /** `after` is `before` minus its `LargestEvictionCount` longest cache
      entries (all of them when there are fewer). */
  predicate EvictedLargest(before: Store, after: Store) {
    var removed := before.Keys - after.Keys;
    && after == before - removed
    && removed <= Evictable(before)
    && |removed| == Min(LargestEvictionCount, |Evictable(before)|)
    && (forall a, b | a in removed && b in Evictable(before) - removed :: |before[b]| <= |before[a]|)
  }

  /** A non-empty set of stored keys has a key with a longest value. */
  lemma LongestExists(store: Store, keys: set<string>) returns (k: string)
    requires keys != {} && keys <= store.Keys
    ensures k in keys && forall j | j in keys :: |store[j]| <= |store[k]|
    decreases keys
  {
    var x :| x in keys;
    if keys == {x} {
      k := x;
    } else {
      var k' := LongestExists(store, keys - {x});
      k := if |store[x]| >= |store[k']| then x else k';
    }
  }

  /** `clearLargeCaches()`. Which of several equally long entries goes first
      depends on the enumeration order of `localStorage`, so it is left open. */
  method ClearLargeCaches(store: Store) returns (r: Store)
    ensures EvictedLargest(store, r)
  {
    var candidates := Evictable(store);
    var removed: set<string> := {};
    while |removed| < LargestEvictionCount && removed != candidates
      invariant removed <= candidates
      invariant |removed| <= LargestEvictionCount
      invariant forall a, b | a in removed && b in candidates - removed :: |store[b]| <= |store[a]|
      decreases LargestEvictionCount - |removed|
    {
      var rest := candidates - removed;
      ghost var longest := LongestExists(store, rest);
      var k :| k in rest && forall j | j in rest :: |store[j]| <= |store[k]|;
      removed := removed + {k};
    }
    RemovingLongestIsEviction(store, removed);
    r := store - removed;
  }

  /** Removing a set of at most `LargestEvictionCount` cache entries, none
      shorter than any entry kept, and all of them when fewer exist, is what
      `EvictedLargest` describes. */
  lemma RemovingLongestIsEviction(store: Store, removed: set<string>)
    requires removed <= Evictable(store)
    requires |removed| <= LargestEvictionCount
    requires |removed| == LargestEvictionCount || removed == Evictable(store)
    requires forall a, b | a in removed && b in Evictable(store) - removed :: |store[b]| <= |store[a]|
    ensures EvictedLargest(store, store - removed)
  {
    RemovedKeys(store, removed);
    RemovedCount(store, removed);
  }

  lemma RemovedKeys(store: Store, removed: set<string>)
    requires removed <= store.Keys
    ensures store.Keys - (store - removed).Keys == removed
  {
  }

  lemma RemovedCount(store: Store, removed: set<string>)
    requires removed <= Evictable(store)
    requires |removed| <= LargestEvictionCount
    requires |removed| == LargestEvictionCount || removed == Evictable(store)
    ensures |removed| == Min(LargestEvictionCount, |Evictable(store)|)
  {
    var e := Evictable(store);
    assert |removed| <= |e| by {
      assert e == removed + (e - removed);
    }
  }

  /** `clearCache(service?)`. An empty service name is falsy and clears the whole cache. */
  function ClearCache(store: Store, service: Option<string>): (r: Store)
    ensures forall k | k in r :: k in store && r[k] == store[k]
    ensures forall k | k in store && !IsCacheKey(k) :: k in r
    ensures service.Some? && service.value != "" ==>
              forall k | k in store :: k in r <==> !StartsWith(k, GetCacheKey(service.value, ""))
    ensures (service.None? || service.value == "") ==> forall k | k in r :: !IsCacheKey(k)
  {
    if service.Some? && service.value != "" then
      RemoveWhere(store, k => StartsWith(k, GetCacheKey(service.value, "")))
    else
      RemoveWhere(store, IsCacheKey)
  }

  // ---------------------------------------------------------------- write path

  /** The three readings of `Date.now()` a `setCache` call can make: before
      the first write, inside `clearOldCache`, and before the retry. */
  datatype Clock = Clock(write: int, sweep: int, retry: int)

  /** How the medium answers the first `setItem` and, if there is one, the retry. */
  datatype Medium = Medium(first: WriteStatus, retry: WriteStatus)

  /** How a `setCache` call ended. None of these reaches the caller, which
      gets `undefined` in every case. */
  datatype SetOutcome =
    | Written(at: int)
    | WrittenOnRetry(at: int)
    | SkippedTooLarge
    | SkippedTooLargeOnRetry
    | DroppedAfterRetry
    | FailedWithoutRetry
  {
    predicate IsStored() { Written? || WrittenOnRetry? }
    predicate RanCascade() { WrittenOnRetry? || SkippedTooLargeOnRetry? || DroppedAfterRetry? }
  }

  /** `after` is `before` with some keys removed and nothing else changed. */
  predicate Shrinks(before: Store, after: Store) {
    forall k | k in after :: k in before && after[k] == before[k]
  }

  /** No cache entry in `store` is stale at `now`. */
  predicate NoStaleEntries(store: Store, now: int) {
    forall k | k in store && IsCacheKey(k) :: !IsStale(store[k], now)
  }

  /** No region-filtered `countries` entry is stored. */
  predicate NoRegionEntries(store: Store) {
    forall k | k in store :: !StartsWith(k, RegionCachePrefix())
  }

  /** `after` differs from `before` only by removed keys, apart from `key`. */
  predicate OnlyRemovesBesides(before: Store, after: Store, key: string) {
    forall k | k in after && k != key :: k in before && after[k] == before[k]
  }

  /** Keys outside the cache's namespace, such as the favourites list, keep their values. */
  predicate KeepsForeignKeys(before: Store, after: Store) {
    forall k | k in before && !IsCacheKey(k) :: k in after && after[k] == before[k]
  }

  /** No cache entry other than `key` is stale at `now`. */
  predicate NoStaleBesides(store: Store, now: int, key: string) {
    forall k | k in store && k != key && IsCacheKey(k) :: !IsStale(store[k], now)
  }

  /** No region-filtered `countries` entry other than `key` is stored. */
  predicate NoRegionBesides(store: Store, key: string) {
    forall k | k in store && k != key :: !StartsWith(k, RegionCachePrefix())
  }

  /** A `countries` write under a region-filtered key, which clears every
      other region entry before it writes. */
  predicate IsRegionWrite(service: string, key: string) {
    service == "countries" && StartsWith(key, RegionKeyPrefix)
  }

  /** The store after the first two rounds of the eviction cascade: the region
      clear (for `countries` only), then `clearOldCache` at `now`. */
  function Swept(store: Store, service: string, now: int): Store {
    ClearOldCache(if service == "countries" then ClearCountryRegionCaches(store) else store, now)
  }

  /** `setCache(service, key, data, expiresIn)`. */
  method SetCache(store: Store, service: string, key: string, data: JsonString,
                  expiresIn: Option<int>, clock: Clock, medium: Medium)
    returns (r: Store, outcome: SetOutcome)
    // the size guard on the first attempt
    ensures outcome == SkippedTooLarge <==>
              |Serialize(data, clock.write, ResolveDuration(service, expiresIn))| > MaxEntryLength
    ensures outcome == SkippedTooLarge ==> r == store
    // which branch the medium's answers select
    ensures outcome.Written? <==> outcome != SkippedTooLarge && medium.first == Accepted
    ensures outcome == FailedWithoutRetry <==> outcome != SkippedTooLarge && medium.first == OtherFailure
    ensures outcome.RanCascade() <==> outcome != SkippedTooLarge && medium.first == QuotaExceeded
    ensures outcome == SkippedTooLargeOnRetry <==>
              outcome.RanCascade() && |Serialize(data, clock.retry, ResolveDuration(service, expiresIn))| > MaxEntryLength
    ensures outcome.WrittenOnRetry? <==>
              outcome.RanCascade() && outcome != SkippedTooLargeOnRetry && medium.retry == Accepted
    // the whole effect on storage: the region guard, then the write or the
    // cascade with its retry; no other key changes
    ensures outcome.Written? ==>
              r == RegionGuard(store, service, key)[GetCacheKey(service, key) :=
                                                     Serialize(data, clock.write, ResolveDuration(service, expiresIn))]
    ensures outcome == FailedWithoutRetry ==> r == RegionGuard(store, service, key)
    ensures outcome.RanCascade() ==>
              exists evicted ::
                && EvictedLargest(Swept(RegionGuard(store, service, key), service, clock.sweep), evicted)
                && r == (if outcome.WrittenOnRetry?
                         then evicted[GetCacheKey(service, key) :=
                                        Serialize(data, clock.retry, ResolveDuration(service, expiresIn))]
                         else evicted)
    // what is stored, and that a later read returns it until it expires
    ensures outcome.Written? ==> outcome.at == clock.write
    ensures outcome.WrittenOnRetry? ==> outcome.at == clock.retry
    ensures outcome.IsStored() ==>
              && GetCacheKey(service, key) in r
              && r[GetCacheKey(service, key)] == Serialize(data, outcome.at, ResolveDuration(service, expiresIn))
              && |r[GetCacheKey(service, key)]| <= MaxEntryLength
    ensures outcome.IsStored() ==>
              forall now :: GetCache(r, service, key, now).data ==
                (if now - outcome.at <= ResolveDuration(service, expiresIn) then Some(data) else None)
    ensures !outcome.IsStored() ==> Shrinks(store, r)
    // every other key is at most removed, and keys outside the cache are never touched
    ensures OnlyRemovesBesides(store, r, GetCacheKey(service, key))
    ensures KeepsForeignKeys(store, r)
    ensures !outcome.RanCascade() ==>
              forall k | k in store && k != GetCacheKey(service, key) && !StartsWith(k, RegionCachePrefix()) :: k in r
    // the region guard, and the region clear inside the cascade
    ensures outcome.IsStored() && IsRegionWrite(service, key) ==>
              NoRegionBesides(r, GetCacheKey(service, key))
    ensures outcome.RanCascade() && service == "countries" ==> NoRegionBesides(r, GetCacheKey(service, key))
    // the cascade leaves no stale entry behind
    ensures outcome.RanCascade() ==> NoStaleBesides(r, clock.sweep, GetCacheKey(service, key))
  {
    var cacheKey := GetCacheKey(service, key);
    var duration := ResolveDuration(service, expiresIn);
    var serialized := Serialize(data, clock.write, duration);
    if |serialized| > MaxEntryLength {
      return store, SkippedTooLarge;
    }
    var s := RegionGuard(store, service, key);
    match medium.first
    case Accepted =>
      r := s[cacheKey := serialized];
      outcome := Written(clock.write);
      WriteAfterGuard(store, s, cacheKey, serialized, IsRegionWrite(service, key));
      ReadAfterStore(r, service, key, data, clock.write, duration);
    case OtherFailure =>
      r, outcome := s, FailedWithoutRetry;
    case QuotaExceeded =>
      r, outcome := Recover(s, service, key, data, duration, clock, medium.retry);
      if outcome.WrittenOnRetry? {
        ReadAfterStore(r, service, key, data, clock.retry, duration);
      }
  }

  /** The proactive region clear `setCache` runs before its first write: it
      removes every region entry for a region write and nothing otherwise. */
  function RegionGuard(store: Store, service: string, key: string): (r: Store)
    ensures Shrinks(store, r) && KeepsForeignKeys(store, r)
    ensures forall k | k in store && !StartsWith(k, RegionCachePrefix()) :: k in r
    ensures IsRegionWrite(service, key) ==> NoRegionEntries(r)
    ensures !IsRegionWrite(service, key) ==> r == store
  {
    if IsRegionWrite(service, key) then ClearCountryRegionCaches(store) else store
  }

  /** The eviction cascade, run once after a quota failure: the region clear
      (for `countries` only), then `clearOldCache`, then `clearLargeCaches`. */
  method Cascade(store: Store, service: string, sweepAt: int) returns (r: Store)
    ensures EvictedLargest(Swept(store, service, sweepAt), r)
    ensures Shrinks(store, r) && KeepsForeignKeys(store, r)
    ensures NoStaleEntries(r, sweepAt)
    ensures service == "countries" ==> NoRegionEntries(r)
  {
    var s1 := if service == "countries" then ClearCountryRegionCaches(store) else store;
    var s2 := ClearOldCache(s1, sweepAt);
    r := ClearLargeCaches(s2);
    SweepsShrink(store, s1, s2, sweepAt);
    LargestAreCacheEntries(s2, r, sweepAt);
    ChainShrinks(store, s2, r);
  }

  /** The first two rounds of the cascade only remove cache entries, and leave
      none stale, nor any region entry when they began with the region clear. */
  lemma SweepsShrink(store: Store, s1: Store, s2: Store, now: int)
    requires Shrinks(store, s1) && KeepsForeignKeys(store, s1)
    requires s2 == ClearOldCache(s1, now)
    ensures Shrinks(store, s2) && KeepsForeignKeys(store, s2)
    ensures NoStaleEntries(s2, now)
    ensures NoRegionEntries(s1) ==> NoRegionEntries(s2)
  {
  }

  /** Removing keys in two rounds is removing keys. */
  lemma ChainShrinks(a: Store, b: Store, c: Store)
    requires Shrinks(a, b) && KeepsForeignKeys(a, b)
    requires Shrinks(b, c) && KeepsForeignKeys(b, c)
    ensures Shrinks(a, c) && KeepsForeignKeys(a, c)
  {
  }

  /** The largest-entry sweep removes cache entries only, so it leaves no
      stale or region entry where there was none. */
  lemma LargestAreCacheEntries(before: Store, after: Store, now: int)
    requires EvictedLargest(before, after)
    ensures Shrinks(before, after) && KeepsForeignKeys(before, after)
    ensures NoStaleEntries(before, now) ==> NoStaleEntries(after, now)
    ensures NoRegionEntries(before) ==> NoRegionEntries(after)
  {
  }

  /** The quota handler of `setCache`: the eviction cascade, then one retry of
      the write with a fresh timestamp. */
  method Recover(store: Store, service: string, key: string, data: JsonString, duration: int,
                 clock: Clock, retry: WriteStatus)
    returns (r: Store, outcome: SetOutcome)
    ensures outcome.RanCascade()
    ensures outcome == SkippedTooLargeOnRetry <==> |Serialize(data, clock.retry, duration)| > MaxEntryLength
    ensures outcome.WrittenOnRetry? <==> outcome != SkippedTooLargeOnRetry && retry == Accepted
    ensures outcome.WrittenOnRetry? ==> outcome.at == clock.retry
    ensures exists evicted ::
              && EvictedLargest(Swept(store, service, clock.sweep), evicted)
              && r == (if outcome.WrittenOnRetry?
                       then evicted[GetCacheKey(service, key) := Serialize(data, clock.retry, duration)]
                       else evicted)
    ensures outcome.WrittenOnRetry? ==>
              && GetCacheKey(service, key) in r
              && r[GetCacheKey(service, key)] == Serialize(data, clock.retry, duration)
    ensures !outcome.IsStored() ==> Shrinks(store, r)
    ensures OnlyRemovesBesides(store, r, GetCacheKey(service, key)) && KeepsForeignKeys(store, r)
    ensures NoStaleBesides(r, clock.sweep, GetCacheKey(service, key))
    ensures service == "countries" ==> NoRegionBesides(r, GetCacheKey(service, key))
  {
    var cacheKey := GetCacheKey(service, key);
    var s := Cascade(store, service, clock.sweep);
    var retried := Serialize(data, clock.retry, duration);
    if |retried| > MaxEntryLength {
      r, outcome := s, SkippedTooLargeOnRetry;
    } else if retry == Accepted {
      r, outcome := s[cacheKey := retried], WrittenOnRetry(clock.retry);
      WriteAfterCascade(store, s, cacheKey, retried, clock.sweep, service == "countries");
    } else {
      r, outcome := s, DroppedAfterRetry;
    }
  }

  /** Writing one cache entry over the region guard's result changes no other
      key, and brings back no region entry besides that one. */
  lemma WriteAfterGuard(store: Store, guarded: Store, cacheKey: string, value: string, cleared: bool)
    requires IsCacheKey(cacheKey)
    requires Shrinks(store, guarded) && KeepsForeignKeys(store, guarded)
    requires cleared ==> NoRegionEntries(guarded)
    ensures OnlyRemovesBesides(store, guarded[cacheKey := value], cacheKey)
    ensures KeepsForeignKeys(store, guarded[cacheKey := value])
    ensures cleared ==> NoRegionBesides(guarded[cacheKey := value], cacheKey)
  {
  }

  /** Writing one cache entry over the cascade's result changes no other key,
      and brings back no stale or region entry besides that one. */
  lemma WriteAfterCascade(store: Store, swept: Store, cacheKey: string, value: string, now: int, countries: bool)
    requires IsCacheKey(cacheKey)
    requires Shrinks(store, swept) && KeepsForeignKeys(store, swept)
    requires NoStaleEntries(swept, now)
    requires countries ==> NoRegionEntries(swept)
    ensures OnlyRemovesBesides(store, swept[cacheKey := value], cacheKey)
    ensures KeepsForeignKeys(store, swept[cacheKey := value])
    ensures NoStaleBesides(swept[cacheKey := value], now, cacheKey)
    ensures countries ==> NoRegionBesides(swept[cacheKey := value], cacheKey)
  {
  }

  /** Once `Serialize(data, at, duration)` sits under the key, every later
      read returns `data` while the entry is fresh and misses afterwards. */
  lemma ReadAfterStore(store: Store, service: string, key: string, data: JsonString, at: int, duration: int)
    requires GetCacheKey(service, key) in store
    requires store[GetCacheKey(service, key)] == Serialize(data, at, duration)
    ensures forall now :: GetCache(store, service, key, now).data ==
              (if now - at <= duration then Some(data) else None)
  {
    DecodeEncode(CacheItem(data, at, duration));
  }
}
