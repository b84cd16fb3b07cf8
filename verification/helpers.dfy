/** `formatRelativeTime`: elapsed time bucketed into "Just now", minutes,
    hours, days, or an absolute date beyond a week. */
module RelativeTime {
  import opened Wrappers
  import Decimal

  const Minute: int := 60
  const Hour: int := 3600
  const Day: int := 86400
  const Week: int := 604800

  /** The label `formatRelativeTime` picks. The absolute date is the text of
      the locale date formatter, which this model takes as given. */
  datatype Label = JustNow | MinutesAgo(minutes: nat) | HoursAgo(hours: nat) | DaysAgo(days: nat) | AbsoluteDate

  /** `Math.floor((now.getTime() - date.getTime()) / 1000)`: whole seconds
      elapsed, rounded down, so a moment in the future gives a negative count. */
  function ElapsedSeconds(nowMs: int, thenMs: int): (d: int)
    ensures d * 1000 <= nowMs - thenMs < d * 1000 + 1000
  {
    (nowMs - thenMs) / 1000
  }

  /** The bucket of an elapsed number of seconds `d`. */
  function Classify(d: int): (l: Label)
    ensures l == JustNow <==> d < Minute
    ensures l.MinutesAgo? <==> Minute <= d < Hour
    ensures l.HoursAgo? <==> Hour <= d < Day
    ensures l.DaysAgo? <==> Day <= d < Week
    ensures l == AbsoluteDate <==> Week <= d
    ensures l.MinutesAgo? ==> 1 <= l.minutes <= 59 && l.minutes * Minute <= d < (l.minutes + 1) * Minute
    ensures l.HoursAgo? ==> 1 <= l.hours <= 23 && l.hours * Hour <= d < (l.hours + 1) * Hour
    ensures l.DaysAgo? ==> 1 <= l.days <= 6 && l.days * Day <= d < (l.days + 1) * Day
  {
    if d < Minute then JustNow
    else if d < Hour then MinutesAgo(d / Minute)
    else if d < Day then HoursAgo(d / Hour)
    else if d < Week then DaysAgo(d / Day)
    else AbsoluteDate
  }

  /** The text of a label; `absolute` is what `formatDate` gives for the same date. */
  function Render(l: Label, absolute: string): string {
    match l
    case JustNow => "Just now"
    case MinutesAgo(n) => Decimal.NatToString(n) + " minutes ago"
    case HoursAgo(n) => Decimal.NatToString(n) + " hours ago"
    case DaysAgo(n) => Decimal.NatToString(n) + " days ago"
    case AbsoluteDate => absolute
  }

  /** `formatRelativeTime(dateString)` at `nowMs` for a date at `thenMs`.
      Within a week the text shown determines the bucket and the count, and
      the count brackets the elapsed time: `n minutes ago` means at least n
      and fewer than n + 1 whole minutes have passed. */
  function FormatRelativeTime(nowMs: int, thenMs: int, absolute: string): (r: string)
    ensures nowMs - thenMs < Minute * 1000 ==> r == "Just now"
    ensures nowMs - thenMs >= Week * 1000 ==> r == absolute
    ensures nowMs - thenMs < Week * 1000 ==> ReadLabel(r) == Some(Classify(ElapsedSeconds(nowMs, thenMs)))
  {
    var bucket := Classify(ElapsedSeconds(nowMs, thenMs));
    if bucket.AbsoluteDate? then absolute
    else
      RenderReadsBack(bucket, absolute);
      Render(bucket, absolute)
  }

  // ---------------------------------------------------------------- reading labels back

  /** The number in front of `suffix`, when `text` is a canonical decimal
      number followed by it. */
  function CountBefore(text: string, suffix: string): Option<nat> {
    if |text| > |suffix| && text[|text| - |suffix|..] == suffix
       && Decimal.IsCanonical(text[..|text| - |suffix|])
    then Some(Decimal.StringToNat(text[..|text| - |suffix|]))
    else None
  }

  /** Recognises the relative texts; anything else, a date included, gives `None`. */
  function ReadLabel(text: string): Option<Label> {
    if text == "Just now" then Some(JustNow)
    else match CountBefore(text, " minutes ago")
      case Some(n) => Some(MinutesAgo(n))
      case None =>
        match CountBefore(text, " hours ago")
        case Some(n) => Some(HoursAgo(n))
        case None =>
          match CountBefore(text, " days ago")
          case Some(n) => Some(DaysAgo(n))
          case None => None
  }

  /** A count rendered in front of `suffix` is read back. */
  lemma CountRoundTrip(n: nat, suffix: string)
    ensures CountBefore(Decimal.NatToString(n) + suffix, suffix) == Some(n)
  {
    var text := Decimal.NatToString(n) + suffix;
    assert text[|text| - |suffix|..] == suffix;
    assert text[..|text| - |suffix|] == Decimal.NatToString(n);
    Decimal.NatRoundTrip(n);
  }

  /** A text ending in ` hours ago` or ` days ago` does not end in ` minutes ago`,
      and one ending in ` days ago` does not end in ` hours ago`. */
  lemma SuffixesExclusive(digits: string)
    ensures CountBefore(digits + " hours ago", " minutes ago").None?
    ensures CountBefore(digits + " days ago", " minutes ago").None?
    ensures CountBefore(digits + " days ago", " hours ago").None?
  {
    var h := digits + " hours ago";
    if |h| > 12 {
      assert h[|h| - 10] == ' ' && h[|h| - 12..][2] == h[|h| - 10];
    }
    var d := digits + " days ago";
    if |d| > 12 {
      assert d[|d| - 9] == ' ' && d[|d| - 12..][3] == d[|d| - 9];
    }
    if |d| > 10 {
      assert d[|d| - 9] == ' ' && d[|d| - 10..][1] == d[|d| - 9];
    }
  }

  /** Every relative text reads back as the label it renders. */
  lemma RenderReadsBack(l: Label, absolute: string)
    requires !l.AbsoluteDate?
    ensures ReadLabel(Render(l, absolute)) == Some(l)
  {
    match l
    case JustNow =>
    case MinutesAgo(n) =>
      CountRoundTrip(n, " minutes ago");
      assert Render(l, absolute) != "Just now" by {
        assert |Render(l, absolute)| > 12;
      }
    case HoursAgo(n) =>
      CountRoundTrip(n, " hours ago");
      SuffixesExclusive(Decimal.NatToString(n));
      assert Render(l, absolute) != "Just now" by {
        assert |Render(l, absolute)| > 10;
      }
    case DaysAgo(n) =>
      CountRoundTrip(n, " days ago");
      SuffixesExclusive(Decimal.NatToString(n));
      assert Render(l, absolute) != "Just now" by {
        assert Render(l, absolute)[|Render(l, absolute)| - 1] == 'o';
      }
  }

  /** The coarseness of a label: later moments never get a finer one. */
  function Rank(l: Label): nat {
    match l
    case JustNow => 0
    case MinutesAgo(_) => 1
    case HoursAgo(_) => 2
    case DaysAgo(_) => 3
    case AbsoluteDate => 4
  }

  /** The count a label shows, 0 for those without one. */
  function Count(l: Label): nat {
    match l
    case MinutesAgo(n) => n
    case HoursAgo(n) => n
    case DaysAgo(n) => n
    case _ => 0
  }

  /** Bucketing is monotone: more elapsed time never gives a finer bucket,
      nor a smaller count within the same bucket. */
  lemma ClassifyMonotone(d1: int, d2: int)
    requires d1 <= d2
    ensures Rank(Classify(d1)) <= Rank(Classify(d2))
    ensures Rank(Classify(d1)) == Rank(Classify(d2)) ==> Count(Classify(d1)) <= Count(Classify(d2))
  {
  }
}

/** `getStorageItem` and `setStorageItem`: JSON values kept under the
    application's own `localStorage` keys. */
module StoredItems {
  import opened Wrappers
  import opened Storage
  import Cache

  /** `STORAGE_KEYS`. */
  const FavoritesKey: string := "opendata_favorites"
  const LastCountryKey: string := "opendata_last_country"
  const ThemeKey: string := "opendata_theme"
  const JokeShownKey: string := "opendata_joke_shown"

  /** `getStorageItem(key, defaultValue)`. `parse` is `JSON.parse` at the
      expected type, `None` where it throws. A missing item and an empty one
      both give the default, and so does one that does not parse. */
  function GetStorageItem<T>(store: Store, key: string, default: T, parse: string -> Option<T>): (r: T)
    ensures r == default || (key in store && store[key] != "" && parse(store[key]) == Some(r))
    ensures key !in store || store[key] == "" ==> r == default
  {
    if key in store && store[key] != "" then
      match parse(store[key])
      case Some(value) => value
      case None => default
    else default
  }

  /** `setStorageItem(key, value)`: `serialize` is `JSON.stringify`; a
      refused write is caught and changes nothing. */
  function SetStorageItem<T>(store: Store, key: string, value: T, serialize: T -> string, status: WriteStatus)
    : (r: Store)
    ensures status == Accepted ==> r == store[key := serialize(value)]
    ensures status != Accepted ==> r == store
  {
    SetItem(store, key, serialize(value), status)
  }

  /** The read falls back to the default exactly when the item is missing,
      empty, or unreadable, and otherwise returns what `parse` reads. */
  lemma GetStorageItemFallback<T>(store: Store, key: string, default: T, parse: string -> Option<T>)
    ensures (key !in store || store[key] == "" || parse(store[key]).None?) ==>
              GetStorageItem(store, key, default, parse) == default
    ensures key in store && store[key] != "" && parse(store[key]).Some? ==>
              GetStorageItem(store, key, default, parse) == parse(store[key]).value
  {
  }

  /** A value written with an encoding its parser reads back is what the next
      read returns, whatever the default; a refused write leaves the previous
      read in place. */
  lemma StoredItemRoundTrip<T>(store: Store, key: string, value: T, default: T,
                               serialize: T -> string, parse: string -> Option<T>, status: WriteStatus)
    requires serialize(value) != "" && parse(serialize(value)) == Some(value)
    ensures status == Accepted ==>
              GetStorageItem(SetStorageItem(store, key, value, serialize, status), key, default, parse) == value
    ensures status != Accepted ==>
              GetStorageItem(SetStorageItem(store, key, value, serialize, status), key, default, parse)
              == GetStorageItem(store, key, default, parse)
  {
  }

  /** The application's keys lie outside the cache's namespace, so no cache
      operation touches them. */
  lemma StorageKeysOutsideCache()
    ensures !Cache.IsCacheKey(FavoritesKey) && !Cache.IsCacheKey(LastCountryKey)
    ensures !Cache.IsCacheKey(ThemeKey) && !Cache.IsCacheKey(JokeShownKey)
  {
    assert FavoritesKey[8] == '_' && LastCountryKey[8] == '_';
    assert ThemeKey[8] == '_' && JokeShownKey[8] == '_';
    assert Cache.CachePrefix[8] == '-';
  }

  /** In particular, clearing the cache keeps the stored favourites. */
  lemma FavoritesSurviveCacheClear(store: Store, service: Option<string>, now: int)
    requires FavoritesKey in store
    ensures FavoritesKey in Cache.ClearCache(store, service)
    ensures Cache.ClearCache(store, service)[FavoritesKey] == store[FavoritesKey]
    ensures FavoritesKey in Cache.ClearOldCache(store, now)
    ensures Cache.ClearOldCache(store, now)[FavoritesKey] == store[FavoritesKey]
  {
    StorageKeysOutsideCache();
  }
}
