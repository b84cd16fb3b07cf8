# OpenData Canvas caches, favourites and time labels in Dafny

This project models the client-side logic of the OpenData Canvas web
application that carries real decisions, and proves properties of it.

- **The persistent TTL cache** (`src/utils/cache.ts`). It covers:
  - namespaced storage keys and lifetimes per service;
  - entries of the form `{data, timestamp, expiresIn}`, expired lazily on read;
  - the sweep of expired or unreadable entries when the module loads;
  - the size guard, and the proactive clear of country region entries;
  - on a quota failure, the eviction cascade (region entries, then stale
    entries, then the five largest entries) followed by a single retry.

  `localStorage` is an immutable `map<string, string>`. The clock is passed in
  as numbers. How the medium answers each `setItem` is an input.
- **The sports service** (`src/services/sportsService.ts`). It covers:
  - the in-memory response cache, with its strict one-minute window;
  - the cache decision of `fetchWithCache`, including the mapping of HTTP and
    network failures to errors;
  - argument validation, cache keys and requests of the four lookups;
  - the league-code cleaner;
  - the rewording of "not found" errors in `getResults`.

  The network is a function from request to response.
- **The favourites list** (`src/context/FavoritesContext.tsx`): add-if-absent,
  remove by id, membership and filtering by type, and the stored copy of the list.
- **Helpers** (`src/utils/helpers.ts`): the bucketing of elapsed time in
  `formatRelativeTime`, and `getStorageItem`/`setStorageItem`.

Files:

| file | module | contents |
|---|---|---|
| `wrappers.dfy` | `Wrappers` | `Option`, `Result` |
| `seqs.dfy` | `Seqs` | order-preserving `Filter` and its laws |
| `strings.dfy` | `Strings` | `startsWith`, `trim`, `includes`, ASCII `toLowerCase` |
| `decimal.dfy` | `Decimal` | decimal rendering and parsing of integers |
| `storage.dfy` | `Storage` | the storage map and `setItem` |
| `jsontext.dfy` | `JsonText` | the grammar of JSON text (RFC 8259) and the serialiser of parsed values |
| `codec.dfy` | `EntryCodec` | the stored text of a cache entry, with encode and decode |
| `cache.dfy` | `Cache` | `cache.ts` |
| `cache_properties.dfy` | `CacheProperties` | lemmas relating several cache operations |
| `json.dfy` | `JsonData` | parsed JSON values and their truthiness |
| `sports.dfy` | `Sports` | `sportsService.ts` |
| `helpers.dfy` | `RelativeTime`, `StoredItems` | `helpers.ts` and the storage keys of `constants.ts` |
| `favorites.dfy` | `Favorites` | `FavoritesContext.tsx` |

A read leaves an undecodable value in place. The `catch` of `getCache`
(`src/utils/cache.ts:158-161`) only logs the error and returns `null`, so
only the sweeps remove such values. See
`CacheProperties.ReadSideEffectOnlyOnExpiry` and
`CacheProperties.SweepAgreesWithRead`.

A context note on the region guard: `countriesService.ts` never writes keys
starting with `region-`. The guard is defensive, but it is modelled as written.

## Model

| member | source | states |
|---|---|---|
| Cache.GetCacheKey | src/utils/cache.ts:17-19 | Every storage key starts with `opendata-canvas-`, followed by the service, a dash and the logical key. |
| CacheProperties.KeyLayout | src/utils/cache.ts:17-19 | In a key of a dash-free service, the service's characters come right after the prefix, and the first dash after the prefix follows them directly. |
| CacheProperties.ServicePrefixDetermined | src/utils/cache.ts:168-170 | A key that starts with another dash-free service's clear-prefix belongs to that service. |
| CacheProperties.CacheKeyInjective | src/utils/cache.ts:17-19 | For dash-free service names, equal storage keys mean equal service and equal logical key. |
| CacheProperties.DashedServiceNamesCollide | src/utils/cache.ts:17-19 | A dash in a service name breaks that: `news`/`top-stories` and `news-top`/`stories` share a storage key. |
| Cache.ResolveDuration | src/utils/cache.ts:24 | The lifetime is the explicit one when it is non-zero. Otherwise it is the service default if there is one, else one hour. It is never zero, and positive unless a negative lifetime is given. |
| CacheProperties.ServiceDurations | src/utils/cache.ts:8-15 | The defaults: countries 12 h, news 30 min, weather 10 min, crypto 2 min, images and jokes 1 h. An unknown service such as `sports` gets 1 h, with no lifetime given or with lifetime 0. |
| Cache.DefaultDuration | src/utils/cache.ts:8-15 | Every service default is positive. |
| EntryCodec.Encode | src/utils/cache.ts:26-32 | The stored text of an entry is 35 characters of framing plus the payload and the two rendered numbers. |
| JsonText.SerializeIsJsonText | src/utils/cache.ts:26-32 | Every serialised JSON value is JSON text under the grammar of RFC 8259, so every payload `setCache` frames can be parsed again. |
| EntryCodec.Decode | src/utils/cache.ts:145-147 | A decoded entry re-encodes to exactly the text that was read. |
| EntryCodec.DecodeFrame | src/utils/cache.ts:147-160 | A framed entry decodes iff its payload is JSON text. A framed payload that is not JSON is a parse failure, which the read reports as a miss. |
| EntryCodec.EmptyPayloadDoesNotDecode | src/utils/cache.ts:147-160 | `{"data":,"timestamp":0,"expiresIn":9}` does not decode. |
| EntryCodec.ArrayPayloadDecodes | src/utils/cache.ts:147-157 | `{"data":[1],"timestamp":5,"expiresIn":6}` decodes to the payload `[1]` with timestamp 5 and lifetime 6. |
| EntryCodec.DecodeEncode | src/utils/cache.ts:147 | Parsing the stored text of an entry gives back that entry. |
| EntryCodec.EncodeDecode | src/utils/cache.ts:147 | A text decodes iff it is the stored text of some entry, and it is the stored text of what it decodes to. |
| EntryCodec.EncodeInjective | src/utils/cache.ts:26-32 | Distinct entries are stored as distinct texts. |
| Decimal.IntRoundTrip | src/utils/cache.ts:28-29 | A timestamp or lifetime rendered in decimal reads back as the same integer, negative ones included. |
| Decimal.ParseIntCanonical | src/utils/cache.ts:147 | Only canonical decimal text reads as an integer: whatever parses re-renders to itself. |
| Storage.SetItem | src/utils/cache.ts:45 | An accepted write stores the value under the key. A refused write changes nothing. No other key changes either way. |
| Storage.RemoveWhere | src/utils/cache.ts:169-173 | Exactly the keys satisfying the condition are removed, and the survivors keep their values. |
| Cache.ReadEntry | src/utils/cache.ts:143-161 | A hit returns the decoded payload of a fresh entry and leaves storage alone. Otherwise storage is unchanged, or only the read key is removed. |
| Cache.GetCache | src/utils/cache.ts:140-162 | A read changes no key but its own, and only by removing it. A hit changes nothing. |
| CacheProperties.ReadEncodedEntry | src/utils/cache.ts:147-157 | On a stored entry, a read hits while the age is at most the lifetime (inclusive). Past that it misses and removes exactly that key. |
| CacheProperties.ReadSideEffectOnlyOnExpiry | src/utils/cache.ts:143-161 | A read changes storage if and only if its value is non-empty, decodes, and has expired. Absent, empty and undecodable values are left in place. |
| Cache.ReadAfterStore | src/utils/cache.ts:147-157 | Once an entry written at `at` with lifetime `d` is stored, every read at `now` returns the data iff `now - at <= d`. |
| CacheProperties.ExpiryIsPermanent | src/utils/cache.ts:149-152 | An entry expired at one instant is expired at every later one. |
| Cache.ClearCountryRegionCaches | src/utils/cache.ts:91-107 | Exactly the keys under `opendata-canvas-countries-region-` are removed. The others keep their values, and keys outside the cache are never removed. |
| Cache.RegionKeysAreCacheKeys | src/utils/cache.ts:94 | Every region key lies in the cache's namespace. |
| Cache.ClearOldCache | src/utils/cache.ts:187-214 | The sweep only removes keys and never touches a key outside the cache. It keeps every value that is not stale. No cache entry left behind is non-empty and undecodable or expired. |
| CacheProperties.SweepDropsStale | src/utils/cache.ts:193-206 | The sweep removes every cache entry that is non-empty and either undecodable or expired. |
| CacheProperties.SweepKeepsUnstale | src/utils/cache.ts:192-210 | The sweep keeps every other entry, with its value. |
| CacheProperties.SweepOfPair | src/utils/cache.ts:192-210 | A store of one stale cache entry and one entry that is not stale sweeps to the second alone. |
| CacheProperties.ExpiredEncodingIsStale | src/utils/cache.ts:196-201 | The sweep treats the encoding of an expired entry as stale. |
| CacheProperties.LiveEncodingIsFresh | src/utils/cache.ts:196-201 | The sweep keeps the encoding of an entry that has not expired. |
| CacheProperties.StartupSweepKeepsFresh | src/utils/cache.ts:216-219 | The load-time sweep over one expired and one fresh entry leaves exactly the fresh one. |
| CacheProperties.SweepAgreesWithRead | src/utils/cache.ts:192-206 | For an entry that decodes, the sweep removes it iff a read at the same instant would. An undecodable non-empty value is removed by the sweep but left by a read. |
| CacheProperties.SweptReadsAreClean | src/utils/cache.ts:187-214 | After the sweep, no read at the same instant changes storage. |
| CacheProperties.ClearOldCacheIdempotent | src/utils/cache.ts:187-214 | Sweeping twice at one instant is sweeping once. |
| Cache.ClearLargeCaches | src/utils/cache.ts:109-138 | Exactly min(5, number of non-empty cache entries) keys are removed. All of them are non-empty cache entries, each at least as long as every cache entry kept, and nothing else changes. |
| Cache.RemovingLongestIsEviction | src/utils/cache.ts:126-134 | Removing a longest-first selection of five entries (or of all, when fewer) is exactly the eviction described above. |
| Cache.LargestAreCacheEntries | src/utils/cache.ts:109-134 | The largest-entry eviction only removes cache keys, so it keeps the favourites and other foreign keys. It creates no stale or region entry. |
| Cache.ClearCache | src/utils/cache.ts:164-185 | With a non-empty service, exactly the keys under that service's prefix are removed. Without one (or with `""`), every cache key is removed. Foreign keys always survive. |
| CacheProperties.ClearCacheIsolatesServices | src/utils/cache.ts:164-173 | Clearing one dash-free service keeps every entry of another dash-free service, with its value. |
| CacheProperties.ClearCacheEmptiesService | src/utils/cache.ts:166-173 | Clearing a service removes each of its entries. |
| Cache.RegionGuard | src/utils/cache.ts:40-43 | A `countries` write under a `region-` key first removes every region entry. Any other write leaves storage alone. |
| Cache.Cascade | src/utils/cache.ts:50-55 | The result is the largest-entry eviction applied to the store after the region clear (for `countries` only) and the expired sweep at the sweep instant. It only removes keys and keeps foreign keys. It leaves no stale entry, and for `countries` no region entry. |
| Cache.SweepsShrink | src/utils/cache.ts:50-54 | The region clear followed by the expired sweep only removes keys, and leaves no stale entry. |
| Cache.Recover | src/utils/cache.ts:47-81 | After a quota failure, the cascade runs once and one retry is made with a fresh timestamp. The retry is skipped iff the re-serialised entry is too large. The result is the cascade's eviction, with the retried entry written over it iff the retry is accepted. No stale entry is left, and for `countries` no region entry besides the written key. |
| Cache.SetCache | src/utils/cache.ts:21-89 | The outcome is determined by the size guard and the medium's answers. An oversized entry leaves storage untouched. An accepted first write gives the region-guarded store plus the entry. Any other failure leaves the guarded store. A quota failure gives the cascade's eviction of the guarded store, plus the entry iff the retry is accepted. A stored entry reads back until it expires. Foreign keys are never touched. A region write, or a `countries` cascade, leaves no region entry besides the written key. The cascade leaves no stale entry. Nothing is raised to the caller. |
| StoredItems.StorageKeysOutsideCache | src/utils/constants.ts:10-15 | The application's four storage keys are not cache keys. |
| StoredItems.FavoritesSurviveCacheClear | src/utils/cache.ts:174-180 | Clearing the cache and sweeping it keep the stored favourites unchanged. |
| Sports.GetCachedData | src/services/sportsService.ts:11-17 | A hit is the data stored under the key. For an entry not from the future, it hits iff it is younger than 60000 ms. An absent key misses. |
| Sports.SetCachedData | src/services/sportsService.ts:19-24 | The key then holds the data stamped with the current time. Every other key keeps its entry, and no other key appears. |
| Sports.CacheWindow | src/services/sportsService.ts:11-24 | Data stored at `at` is served strictly before `at + 60000` and missed from then on. Other keys read as before. |
| Sports.FetchWithCache | src/services/sportsService.ts:26-61 | A truthy hit is returned without a request. Otherwise the request is sent. A success came from an ok response and is cached at the time it was parsed. A failure is a fetch error and leaves the cache as it was. Only the lookup's own key can change. |
| Sports.FalsyHitRefetches | src/services/sportsService.ts:28-31 | A fresh but falsy cached value does not prevent a request. |
| Sports.FetchedThenServed | src/services/sportsService.ts:28-52 | A truthy response fetched and cached is served again within the window, without a request and with the cache unchanged. |
| Sports.FailedStatusNotCached | src/services/sportsService.ts:36-47 | On a miss, a non-ok status raises 404, 503 or the generic API error, and caches nothing. |
| Sports.Unwrap | src/services/sportsService.ts:74-84 | Every item returned is a part of the response. Only an array or an object can yield a non-empty list. |
| Sports.UnwrapShapes | src/services/sportsService.ts:74-84 | The `{success, data}` envelope yields its `data` array, a bare array is returned as it is, and an object whose `data` is not an array yields an empty list. |
| JsonData.Field | src/services/sportsService.ts:75-76 | A field lookup fails iff no field has the name. Otherwise it returns the value of the last field with that name. |
| Sports.GetSportCategories | src/services/sportsService.ts:67-89 | The categories lookup sends the fixed categories request and touches only its own cache key. |
| Sports.GetMatches | src/services/sportsService.ts:95-121 | The call fails with "Category is required" iff the category is empty or all whitespace, and then sends nothing and leaves the cache alone. Any request sent carries the lower-cased category, and only the lookup's key can change. |
| Sports.GetMatchDetail | src/services/sportsService.ts:126-144 | Same validation for the category, then for the match id, in that order. Any request sent carries the lower-cased category and the id. |
| Sports.GetResults | src/services/sportsService.ts:149-191 | Fails with the category error iff the category is blank, and then sends nothing. Any request sent is the results request with the cleaned league parameter, and only its key can change. |
| Strings.BlankIffTrimsAway | src/services/sportsService.ts:96 | A string counts as blank, in the sense used above, iff it is empty or trims to empty. |
| Sports.CleanLeague | src/services/sportsService.ts:161 | The cleaned league holds only characters from `[A-Za-z0-9:._-]` and is no longer than the input. |
| Sports.CleanLeagueKeepsLeagueChars | src/services/sportsService.ts:161 | The cleaner keeps exactly the league characters of the input, in order: the trim makes no difference. |
| Sports.CleanLeagueIdempotent | src/services/sportsService.ts:161 | Cleaning twice is cleaning once, and a code of league characters only passes unchanged. |
| Sports.LeagueParam | src/services/sportsService.ts:159-165 | A league parameter is sent iff the category is `tables` or `scores`, a league is given, and its cleaned form is non-empty. The value sent is the cleaned form. |
| Sports.ValidCodeSent | src/services/sportsService.ts:159-164 | A code such as `PL` or `c:1` is sent as it is. |
| Sports.PaddingCleansAway | src/services/sportsService.ts:161 | Whitespace in front of a valid code is cleaned away. |
| Sports.PaddedLeagueSentBare | src/services/sportsService.ts:159-164 | A whitespace-padded code sends the same request as the bare code. |
| Sports.PaddedLeagueGetsOwnKey | src/services/sportsService.ts:167 | It is still cached under a different key, because the key uses the league as given. |
| Sports.AllLeagueSharesKey | src/services/sportsService.ts:167 | League `all`, the empty league and no league share one results key. |
| Sports.AllLeagueSentAlone | src/services/sportsService.ts:159-164 | For tables and scores, league `all` sends a different request from no league. |
| Sports.AllLeagueServesNoLeague | src/services/sportsService.ts:157-171 | So a table fetched for league `all` is served, within the window and without a request, to a later lookup with no league. |
| Sports.Reword | src/services/sportsService.ts:174-186 | An error is replaced only when its message mentions `404` or `not found`, and always then. The replacement is the league error (for tables and scores) or the no-leagues error. |
| Sports.RewordNotFound | src/services/sportsService.ts:174-185 | A 404 in `getResults` becomes the league error for tables and scores, and the no-leagues error otherwise. |
| Sports.RewordStatusText | src/services/sportsService.ts:174-185 | So does any API error whose status text mentions `not found`. |
| Sports.RewordPassesThrough | src/services/sportsService.ts:174-186 | The 503 error and the network error pass through unchanged. |
| Sports.MissingLeagueReported | src/services/sportsService.ts:169-181 | A table or score lookup answered with 404 reports the league (or `undefined`) as not found and caches nothing. |
| Sports.EndpointKeysDisjoint | src/services/sportsService.ts:69-167 | The categories, matches, detail and results lookups never share a cache key. |
| Sports.MatchesIgnoreCase | src/services/sportsService.ts:100-101 | Match lookups differing only in the case of ASCII letters share key and request. |
| Sports.DetailKeysCanCollide | src/services/sportsService.ts:134-135 | A dash in the category lets two different detail requests share a cache key. |
| RelativeTime.ElapsedSeconds | src/utils/helpers.ts:17 | The whole seconds elapsed, rounded down, bracket the millisecond difference, also for future dates. |
| RelativeTime.Classify | src/utils/helpers.ts:19-24 | Below 60 s, any negative difference included: "Just now". Minutes iff 60 ≤ d < 3600 with count 1..59. Hours iff below 86400 with count 1..23. Days iff below 604800 with count 1..6. The absolute date from a week on. Each count brackets d. |
| RelativeTime.RenderReadsBack | src/utils/helpers.ts:19-22 | Every relative text reads back as the label it renders, so the texts of different labels differ. |
| RelativeTime.FormatRelativeTime | src/utils/helpers.ts:14-25 | Under a minute (future dates included) the text is "Just now", and from a week on the absolute date. Within a week the text reads back as the bucket and count of the elapsed time. |
| RelativeTime.ClassifyMonotone | src/utils/helpers.ts:19-24 | More elapsed time never gives a finer bucket, nor a smaller count within a bucket. |
| StoredItems.GetStorageItem | src/utils/helpers.ts:44-51 | The result is the default or what the parser reads from the stored, non-empty item. A missing or empty item gives the default. |
| StoredItems.SetStorageItem | src/utils/helpers.ts:53-59 | An accepted write stores the encoded value under the key. A refused write is swallowed and changes nothing. |
| StoredItems.GetStorageItemFallback | src/utils/helpers.ts:44-51 | A missing, empty or unparsable item gives the default. Otherwise the parsed value is returned, which may itself equal the default. |
| StoredItems.StoredItemRoundTrip | src/utils/helpers.ts:44-59 | A value written with an encoding its parser reads back is what the next read returns. A refused write leaves the previous read in place. |
| Favorites.AddFavorite | src/context/FavoritesContext.tsx:25-30 | After adding, the id is a favourite. A known id leaves the list as it was. A new one appends exactly one entry, keeping the earlier entries in order. Unique ids stay unique. |
| Favorites.IsFavorite | src/context/FavoritesContext.tsx:36-38 | The front-to-back scan finds the id iff some position of the list holds it. |
| Favorites.RemoveFavorite | src/context/FavoritesContext.tsx:32-34 | After removing, the id is no favourite. Each entry under another id keeps its number of occurrences, and entries under the id have none. Unique ids stay unique. |
| Favorites.RemoveDistributes | src/context/FavoritesContext.tsx:32-34 | Removing from a concatenation removes from each part, so the survivors keep their order. |
| Favorites.FilterKeepsUniqueIds | src/context/FavoritesContext.tsx:33 | Filtering a list with unique ids keeps them unique. |
| Favorites.FavoritesByType | src/context/FavoritesContext.tsx:40-42 | An entry is listed iff it is in the list with that type. Each entry of that type keeps its number of occurrences. |
| Favorites.ByTypeDistributes | src/context/FavoritesContext.tsx:40-42 | Filtering a concatenation by type filters each part, so the order is kept. |
| Favorites.MembershipAfterAdd | src/context/FavoritesContext.tsx:25-38 | After adding `id`, exactly `id` and the earlier favourites are favourites. |
| Favorites.MembershipAfterRemove | src/context/FavoritesContext.tsx:32-38 | After removing `id`, exactly the earlier favourites other than `id` are. |
| Favorites.RemoveIdempotent | src/context/FavoritesContext.tsx:32-34 | Removing twice is removing once. |
| Favorites.RemoveAbsent | src/context/FavoritesContext.tsx:32-34 | Removing an id that is not there changes nothing. |
| Favorites.RemoveUndoesAdd | src/context/FavoritesContext.tsx:25-34 | Adding a new id and removing it restores the list. |
| Favorites.ReAddMovesToEnd | src/context/FavoritesContext.tsx:25-34 | Removing and re-adding moves a favourite to the end with its new details. |
| Favorites.ByTypeAfterAdd | src/context/FavoritesContext.tsx:25-42 | A new favourite appears at the end of its own type's list and in no other. |
| Favorites.TypesPartition | src/context/FavoritesContext.tsx:40-42 | The four type lists together are as long as the whole list. |
| Favorites.ReloadRestoresFavorites | src/context/FavoritesContext.tsx:17-23 | A saved list is the one the next provider starts from, when the write is accepted and the encoding reads back. |

## Left out

- Console logging in every module: it has no effect on the results.
- EntryCodec.Decode: the model accepts exactly the layout `JSON.stringify` produces for an entry with integer fields, around a payload that is JSON text. `JSON.parse` also accepts whitespace between the fields, other field orders, escaped field names and fractional numbers. `setCache` never writes any of those, so only a value written by other code could tell the two apart.
- Cache.GetCache: "decodes" means `EntryCodec.Decode`, so a foreign JSON entry in another layout counts as a miss that leaves it in place.
- CacheProperties.ReadSideEffectOnlyOnExpiry: the same limit applies. A foreign JSON entry in another layout counts as undecodable, so it is never removed by a read.
- Cache.ClearOldCache: a value that parses as JSON but has no numeric `timestamp` (such as `{}`) is removed by the model. The source keeps it, because its age compares as `NaN`. Values written by `setCache` are never of that kind.
- Cache.ReadEntry: for a value that parses but is not an entry, the source returns `undefined` rather than `null`. The model reports a miss for both, and callers treat both alike.
- Cache.ClearLargeCaches: entries are ranked by length in characters. `item.length` counts UTF-16 code units, so entries with characters outside the Basic Multilingual Plane can rank differently.
- Cache.SetCache: serialised length is counted in characters, not UTF-16 code units. `JSON.stringify` failures (cycles, `BigInt`) are not modelled, because the payload is already JSON text. A quota error is recognised by the name `QuotaExceededError` only, as in the source.
- Cache.ResolveDuration: `NaN` lifetimes and service names that are `Object.prototype` properties (such as `toString`) are not modelled.
- Exceptions from `getItem`, `removeItem` and `Object.keys`: every read and removal is atomic and succeeds. Cross-tab interleavings are out of scope for the same reason.
- Strings.AsciiLower: `toLowerCase` is modelled for ASCII letters only.
- Percent-encoding of query parameters: `Request` holds the parameters before `encodeURIComponent`. The fixed base URL is left out.
- Sports.GetSportCategories: its `catch` only logs and rethrows, which the model does by passing the error through.
- The `status` property attached to the 404 error: nothing reads it.
- `formatNumber`, `formatDate` and `Intl`: the absolute date text is a parameter of `RelativeTime.FormatRelativeTime`. Invalid date strings (a `NaN` difference) are left out.
- `JSON.parse` and `JSON.stringify` in `getStorageItem`/`setStorageItem` are parameters. The source does not check the parsed value's shape, and neither does the model.
- `addedAt` (`new Date().toISOString()`) is a parameter of `Favorites.AddFavorite`.
- React state batching, effects and the `useFavorites` provider check: each update is one sequential function application, and the save effect is `Favorites.SaveFavorites`.
- `debounce`, `validateStyles`, `safeApplyStyles`, pages, components and the other fetch services: UI, timers and network code outside this model.
