/** The sports service: an in-memory response cache with a one-minute window
    in front of the sports API, the validation and cache keys of its lookups,
    the league-code cleaner, and the rewording of lookup failures. */
module Sports {
  import opened Wrappers
  import opened Strings
  import opened JsonData
  import Seqs
  import Decimal

  // ---------------------------------------------------------------- memory cache

  /** `CACHE_DURATION`: how long a cached response is served, in milliseconds. */
  const CacheDuration: int := 60000

  /** A cached response and the time it was stored. */
  datatype Entry = Entry(data: Json, timestamp: int)

  /** The module-level `Map` of cached responses. Entries are never deleted. */
  type MemoryCache = map<string, Entry>

  /** `getCachedData(key)` at time `now`: the stored data while it is strictly
      younger than the window. A stale entry is ignored, not removed. */
  function GetCachedData(cache: MemoryCache, key: string, now: int): (r: Option<Json>)
    ensures r.Some? ==> key in cache && r.value == cache[key].data
    ensures key in cache && cache[key].timestamp <= now ==>
              (r.Some? <==> now < cache[key].timestamp + CacheDuration)
    ensures key !in cache ==> r.None?
  {
    if key in cache && now - cache[key].timestamp < CacheDuration then Some(cache[key].data) else None
  }

  /** `setCachedData(key, data)` at time `now`: overwrites whatever was stored. */
  function SetCachedData(cache: MemoryCache, key: string, data: Json, now: int): (r: MemoryCache)
    ensures r.Keys == cache.Keys + {key}
    ensures r[key] == Entry(data, now)
    ensures forall k | k in cache && k != key :: r[k] == cache[k]
  {
    cache[key := Entry(data, now)]
  }

  /** Data stored at `at` is served up to, but not including, `at + CacheDuration`;
      other keys read as before. */
  lemma CacheWindow(cache: MemoryCache, key: string, data: Json, at: int, now: int, other: string)
    ensures now < at + CacheDuration ==> GetCachedData(SetCachedData(cache, key, data, at), key, now) == Some(data)
    ensures now >= at + CacheDuration ==> GetCachedData(SetCachedData(cache, key, data, at), key, now) == None
    ensures other != key ==>
              GetCachedData(SetCachedData(cache, key, data, at), other, now) == GetCachedData(cache, other, now)
  {
  }

  // ---------------------------------------------------------------- requests and errors

  /** The query string of a request to the sports API before percent-encoding:
      `data` names the endpoint, the other parameters are present or absent. */
  datatype Request = Request(data: string, category: Option<string>, id: Option<string>, league: Option<string>)

  /** What a rejected `fetch(url)` or `response.json()` throws. */
  datatype Thrown = Thrown(isTypeError: bool, message: string)

  /** The server's answer: status, status text, and the outcome of parsing its body. */
  datatype Response = Response(status: int, statusText: string, body: Result<Json, Thrown>)

  /** The errors the service's lookups raise. */
  datatype SportsError =
    | CategoryRequired
    | ResultsCategoryRequired
    | MatchIdRequired
    | NotFound
    | Unavailable
    | ApiError(status: int, statusText: string)
    | NetworkError
    | Rethrown(thrown: Thrown)
    | LeagueNotFound(league: Option<string>)
    | NoLeagues

  /** The `message` of each error. The 503 and network messages are written as
      three literals each, joined: the lemmas that show neither mentions `404`
      or `not found` check one short literal at a time, which the verifier
      does far more cheaply than one long literal. The text is the same. */
  function Message(e: SportsError): string {
    match e
    case CategoryRequired => "Category is required"
    case ResultsCategoryRequired => "Category is required (leagues, tables, or scores)"
    case MatchIdRequired => "Match ID is required"
    case NotFound => "404 Not Found"
    case Unavailable => "Service temporarily " + "unavailable. " + "Please try again later."
    case ApiError(status, text) => "API error: " + Decimal.IntToString(status) + " " + text
    case NetworkError => "Network error. " + "Please check your " + "internet connection."
    case Rethrown(t) => t.message
    case LeagueNotFound(league) =>
      "League \"" + (if league.Some? then league.value else "undefined") + "\" not found. "
      + "Please check the league code. Common formats: \"PL\" (Premier League), \"NBA\", \"c:1\", etc. "
      + "Try fetching leagues first to see available options."
    case NoLeagues => "No leagues found for this category. Please try a different sport."
  }

  /** `response.ok`. */
  predicate IsOk(status: int) {
    200 <= status <= 299
  }

  /** The error `fetchWithCache` raises for a response that is not ok. */
  function StatusError(status: int, statusText: string): SportsError {
    if status == 404 then NotFound
    else if status == 503 then Unavailable
    else ApiError(status, statusText)
  }

  /** The `catch` of `fetchWithCache`: a `TypeError` mentioning `fetch` becomes
      the network error, anything else is rethrown as it is. */
  function Caught(t: Thrown): SportsError {
    if t.isTypeError && Contains(t.message, "fetch") then NetworkError else Rethrown(t)
  }

  /** The errors a request can end in, as opposed to a rejected argument. */
  predicate IsFetchError(e: SportsError) {
    e.NotFound? || e.Unavailable? || e.ApiError? || e.NetworkError? || e.Rethrown?
  }

  /** `after` differs from `cache` at most at `key`. */
  predicate OnlyTouches(cache: MemoryCache, after: MemoryCache, key: string) {
    forall k | k in after && k != key :: k in cache && after[k] == cache[k]
  }

  /** The outcome of one service call: its result, the cache afterwards, and
      the request it sent to the network, if it sent one. */
  datatype Call<T> = Call(result: Result<T, SportsError>, cache: MemoryCache, sent: Option<Request>)

  /** `fetchWithCache(url, cacheKey)`: the cache is consulted at `now`; on a
      miss `network` answers `request`, and a successful answer is cached at
      `later`, the time the response has been parsed. */
  function FetchWithCache(cache: MemoryCache, key: string, request: Request, now: int, later: int,
                          network: Request -> Result<Response, Thrown>): (c: Call<Json>)
    ensures var hit := GetCachedData(cache, key, now);
            hit.Some? && Truthy(hit.value) ==> c == Call(Ok(hit.value), cache, None)
    ensures var hit := GetCachedData(cache, key, now);
            !(hit.Some? && Truthy(hit.value)) ==> c.sent == Some(request)
    ensures c.result.Err? ==> c.cache == cache && IsFetchError(c.result.error)
    ensures c.sent.Some? && c.result.Ok? ==>
              network(request).Ok? && IsOk(network(request).value.status)
              && network(request).value.body == Ok(c.result.value)
              && c.cache == SetCachedData(cache, key, c.result.value, later)
    ensures c.cache == cache || c.cache == SetCachedData(cache, key, c.result.value, later)
    ensures cache.Keys <= c.cache.Keys
    ensures OnlyTouches(cache, c.cache, key)
  {
    var hit := GetCachedData(cache, key, now);
    if hit.Some? && Truthy(hit.value) then
      Call(Ok(hit.value), cache, None)
    else
      var outcome: Result<Json, SportsError> :=
        match network(request)
        case Err(t) => Err(Caught(t))
        case Ok(response) =>
          if !IsOk(response.status) then Err(StatusError(response.status, response.statusText))
          else match response.body
            case Err(t) => Err(Caught(t))
            case Ok(data) => Ok(data);
      Call(outcome, if outcome.Ok? then SetCachedData(cache, key, outcome.value, later) else cache, Some(request))
  }

  /** A falsy cached value, even a fresh one, is fetched again. */
  lemma FalsyHitRefetches(cache: MemoryCache, key: string, request: Request, now: int, later: int,
                          network: Request -> Result<Response, Thrown>)
    requires key in cache && now - cache[key].timestamp < CacheDuration && !Truthy(cache[key].data)
    ensures FetchWithCache(cache, key, request, now, later, network).sent == Some(request)
  {
  }

  /** A truthy response fetched and cached at `later` is served from the cache,
      without a request, for the rest of the window. */
  lemma FetchedThenServed(cache: MemoryCache, key: string, request: Request, now: int, later: int,
                          network: Request -> Result<Response, Thrown>,
                          request2: Request, now2: int, later2: int, network2: Request -> Result<Response, Thrown>)
    requires FetchWithCache(cache, key, request, now, later, network).sent.Some?
    requires FetchWithCache(cache, key, request, now, later, network).result.Ok?
    requires Truthy(FetchWithCache(cache, key, request, now, later, network).result.value)
    requires now2 - later < CacheDuration
    ensures var first := FetchWithCache(cache, key, request, now, later, network);
            var second := FetchWithCache(first.cache, key, request2, now2, later2, network2);
            second.result == first.result && second.sent == None && second.cache == first.cache
  {
  }

  /** Applies `f` to a successful result. */
  function MapCall<T>(c: Call<Json>, f: Json -> T): (r: Call<T>)
    ensures r.cache == c.cache && r.sent == c.sent
    ensures r.result.Ok? <==> c.result.Ok?
    ensures r.result.Ok? ==> r.result.value == f(c.result.value)
    ensures r.result.Err? ==> r.result.error == c.result.error
  {
    Call(if c.result.Ok? then Ok(f(c.result.value)) else Err(c.result.error), c.cache, c.sent)
  }

  // ---------------------------------------------------------------- response shape

  /** The list a lookup returns from the API's `{ success, data: [...] }`
      envelope: the `data` array of an object that has one, a bare array as it
      is, and an empty list for anything else. */
  function Unwrap(response: Json): (r: seq<Json>)
    ensures forall x | x in r :: x < response
    ensures r != [] ==> response.JArray? || response.JObject?
  {
    match response
    case JObject(fields) =>
      (match Field(fields, "data") case Some(JArray(items)) => items case _ => [])
    case JArray(items) => items
    case _ => []
  }

  /** The envelope yields its `data` array, a bare array is already
      unwrapped, and an object whose `data` is not an array yields nothing. */
  lemma UnwrapShapes(items: seq<Json>, success: bool, notArray: Json)
    requires !notArray.JArray?
    ensures Unwrap(JObject([("success", JBool(success)), ("data", JArray(items))])) == items
    ensures Unwrap(JArray(Unwrap(JObject([("success", JBool(success)), ("data", JArray(items))])))) == items
    ensures Unwrap(JObject([("data", notArray)])) == []
    ensures Unwrap(notArray) == [] || notArray.JObject?
  {
    assert [("success", JBool(success)), ("data", JArray(items))]
        == [("success", JBool(success))] + [("data", JArray(items))];
    FieldOfAppended([("success", JBool(success))], "data", JArray(items), "data");
    FieldOfAppended([], "data", notArray, "data");
  }

  // ---------------------------------------------------------------- league cleaner

  /** The characters the league pattern `[a-zA-Z0-9:._-]` accepts. */
  predicate IsLeagueChar(c: char) {
    ('a' <= c <= 'z') || ('A' <= c <= 'Z') || ('0' <= c <= '9') || c == ':' || c == '.' || c == '_' || c == '-'
  }

  /** `league.trim().replace(/[^a-zA-Z0-9:._-]/g, '')`. */
  function CleanLeague(league: string): (r: string)
    ensures forall i :: 0 <= i < |r| ==> IsLeagueChar(r[i])
    ensures |r| <= |league|
  {
    var t := Trim(league);
    Seqs.Filter(t, IsLeagueChar)
  }

  /** The cleaner keeps exactly the league characters, in order: trimming
      first makes no difference, because none of them is whitespace. */
  lemma CleanLeagueKeepsLeagueChars(league: string)
    ensures CleanLeague(league) == Seqs.Filter(league, IsLeagueChar)
  {
    LeagueCharsAreNotWhitespace();
    FilterIgnoresTrim(league, IsLeagueChar);
  }

  lemma LeagueCharsAreNotWhitespace()
    ensures forall c :: IsLeagueChar(c) ==> !IsJsWhitespace(c)
  {
  }

  /** Cleaning is idempotent, and a code made of league characters only,
      such as `PL` or `c:1`, passes unchanged. */
  lemma CleanLeagueIdempotent(league: string)
    ensures CleanLeague(CleanLeague(league)) == CleanLeague(league)
    ensures (forall i :: 0 <= i < |league| ==> IsLeagueChar(league[i])) ==> CleanLeague(league) == league
  {
    CleanLeagueKeepsLeagueChars(league);
    CleanLeagueKeepsLeagueChars(CleanLeague(league));
    Seqs.FilterIdempotent(league, IsLeagueChar);
    if forall i :: 0 <= i < |league| ==> IsLeagueChar(league[i]) {
      Seqs.FilterAllKept(league, IsLeagueChar);
    }
  }

  /** True for the categories whose lookup takes a league. */
  predicate TakesLeague(category: string) {
    category == "tables" || category == "scores"
  }

  /** The `league` query parameter `getResults` sends: the cleaned league,
      for tables and scores only, and only when something is left of it. */
  function LeagueParam(category: string, league: Option<string>): (r: Option<string>)
    ensures r.Some? <==> TakesLeague(category) && league.Some? && CleanLeague(league.value) != ""
    ensures r.Some? ==> r.value == CleanLeague(league.value)
  {
    if league.Some? && league.value != "" && TakesLeague(category) then
      var clean := CleanLeague(league.value);
      if clean != "" then Some(clean) else None
    else None
  }

  // ---------------------------------------------------------------- lookups

  /** `league || 'all'`. */
  function LeagueOrAll(league: Option<string>): string {
    if league.Some? && league.value != "" then league.value else "all"
  }

  const CategoriesKey: string := "sports-categories"

  function MatchesKey(category: string): string {
    "matches-" + AsciiLower(category)
  }

  function MatchDetailKey(category: string, matchId: string): string {
    "match-detail-" + AsciiLower(category) + "-" + matchId
  }

  /** The key of a results lookup uses the league as given, not the cleaned one. */
  function ResultsKey(category: string, league: Option<string>): string {
    "results-" + category + "-" + LeagueOrAll(league)
  }

  const CategoriesRequest: Request := Request("sports", None, None, None)

  function MatchesRequest(category: string): Request {
    Request("matches", Some(AsciiLower(category)), None, None)
  }

  function DetailRequest(category: string, matchId: string): Request {
    Request("detail", Some(AsciiLower(category)), Some(matchId), None)
  }

  function ResultsRequest(category: string, league: Option<string>): Request {
    Request("results", Some(category), None, LeagueParam(category, league))
  }

  /** `getSportCategories()`. */
  function GetSportCategories(cache: MemoryCache, now: int, later: int,
                              network: Request -> Result<Response, Thrown>): (c: Call<seq<Json>>)
    ensures c.sent.Some? ==> c.sent.value == CategoriesRequest
    ensures OnlyTouches(cache, c.cache, CategoriesKey)
  {
    MapCall(FetchWithCache(cache, CategoriesKey, CategoriesRequest, now, later, network), Unwrap)
  }

  /** `getMatches(category)`. */
  function GetMatches(cache: MemoryCache, category: string, now: int, later: int,
                      network: Request -> Result<Response, Thrown>): (c: Call<seq<Json>>)
    ensures c.result == Err(CategoryRequired) <==> IsBlank(category)
    ensures IsBlank(category) ==> c.cache == cache && c.sent == None
    ensures c.sent.Some? ==> c.sent.value == MatchesRequest(category)
    ensures OnlyTouches(cache, c.cache, MatchesKey(category))
  {
    if IsBlank(category) then Call(Err(CategoryRequired), cache, None)
    else MapCall(FetchWithCache(cache, MatchesKey(category), MatchesRequest(category), now, later, network), Unwrap)
  }

  /** `getMatchDetail(category, matchId)`. */
  function GetMatchDetail(cache: MemoryCache, category: string, matchId: string, now: int, later: int,
                          network: Request -> Result<Response, Thrown>): (c: Call<Json>)
    ensures c.result == Err(CategoryRequired) <==> IsBlank(category)
    ensures c.result == Err(MatchIdRequired) <==> !IsBlank(category) && IsBlank(matchId)
    ensures IsBlank(category) || IsBlank(matchId) ==> c.cache == cache && c.sent == None
    ensures c.sent.Some? ==> c.sent.value == DetailRequest(category, matchId)
    ensures OnlyTouches(cache, c.cache, MatchDetailKey(category, matchId))
  {
    if IsBlank(category) then Call(Err(CategoryRequired), cache, None)
    else if IsBlank(matchId) then Call(Err(MatchIdRequired), cache, None)
    else FetchWithCache(cache, MatchDetailKey(category, matchId), DetailRequest(category, matchId), now, later, network)
  }

  /** The `catch` of `getResults`: an error whose message mentions `404` or
      `not found` is replaced by one about the league or the category. */
  function Reword(e: SportsError, category: string, league: Option<string>): (r: SportsError)
    ensures r != e ==> Contains(Message(e), "404") || Contains(Message(e), "not found")
    ensures !(Contains(Message(e), "404") || Contains(Message(e), "not found")) ==> r == e
    ensures r == e || r == NoLeagues || r == LeagueNotFound(league)
    ensures r.LeagueNotFound? ==> TakesLeague(category) || e.LeagueNotFound?
  {
    if Contains(Message(e), "404") || Contains(Message(e), "not found") then
      if TakesLeague(category) then LeagueNotFound(league) else NoLeagues
    else e
  }

  /** `getResults(category, league)`. */
  function GetResults(cache: MemoryCache, category: string, league: Option<string>, now: int, later: int,
                      network: Request -> Result<Response, Thrown>): (c: Call<Json>)
    ensures c.result == Err(ResultsCategoryRequired) <==> IsBlank(category)
    ensures IsBlank(category) ==> c.cache == cache && c.sent == None
    ensures c.sent.Some? ==> c.sent.value == ResultsRequest(category, league)
    ensures OnlyTouches(cache, c.cache, ResultsKey(category, league))
  {
    if IsBlank(category) then Call(Err(ResultsCategoryRequired), cache, None)
    else
      var f := FetchWithCache(cache, ResultsKey(category, league), ResultsRequest(category, league), now, later, network);
      Call(if f.result.Err? then Err(Reword(f.result.error, category, league)) else f.result, f.cache, f.sent)
  }

  // ---------------------------------------------------------------- properties

  /** A 404 always becomes the league or category error. */
  lemma RewordNotFound(category: string, league: Option<string>)
    ensures Reword(NotFound, category, league) == (if TakesLeague(category) then LeagueNotFound(league) else NoLeagues)
  {
    assert StartsWith(Message(NotFound)[0..], "404");
  }

  /** The 503 and network errors pass through unchanged. */
  lemma RewordPassesThrough(category: string, league: Option<string>)
    ensures Reword(Unavailable, category, league) == Unavailable
    ensures Reword(NetworkError, category, league) == NetworkError
  {
    UnavailableUnmentioned();
    NetworkUnmentioned();
  }

  // Neither the 503 message nor the network message contains the character
  // `4` or `f`, and every mention of `404` or `not found` needs one of them.
  // Each message is checked literal by literal (see `Message`), and
  // `JoinLacks` carries the fact across the joins.

  lemma UnavailableUnmentioned()
    ensures !Contains(Message(Unavailable), "404") && !Contains(Message(Unavailable), "not found")
  {
    UnavailableLacksCharacters();
    MentionsNeither(Message(Unavailable));
  }

  lemma UnavailableLacksCharacters()
    ensures '4' !in Message(Unavailable) && 'f' !in Message(Unavailable)
  {
    var a, b, c := "Service temporarily ", "unavailable. ", "Please try again later.";
    assert '4' !in a && 'f' !in a;
    assert '4' !in b && 'f' !in b;
    assert '4' !in c && 'f' !in c;
    JoinLacks(a, b);
    JoinLacks(a + b, c);
  }

  lemma NetworkUnmentioned()
    ensures !Contains(Message(NetworkError), "404") && !Contains(Message(NetworkError), "not found")
  {
    NetworkLacksCharacters();
    MentionsNeither(Message(NetworkError));
  }

  lemma NetworkLacksCharacters()
    ensures '4' !in Message(NetworkError) && 'f' !in Message(NetworkError)
  {
    var a, b, c := "Network error. ", "Please check your ", "internet connection.";
    assert '4' !in a && 'f' !in a;
    assert '4' !in b && 'f' !in b;
    assert '4' !in c && 'f' !in c;
    JoinLacks(a, b);
    JoinLacks(a + b, c);
  }

  /** Two texts without `4` and `f` joined have neither. */
  lemma JoinLacks(a: string, b: string)
    requires '4' !in a && 'f' !in a && '4' !in b && 'f' !in b
    ensures '4' !in a + b && 'f' !in a + b
  {
  }

  /** A message without the characters `4` and `f` mentions neither `404` nor `not found`. */
  lemma MentionsNeither(message: string)
    requires '4' !in message && 'f' !in message
    ensures !Contains(message, "404") && !Contains(message, "not found")
  {
    NotContainedWithout(message, "404", '4');
    NotContainedWithout(message, "not found", 'f');
  }

  /** Any other failed status whose status text says `not found` is reworded as well. */
  lemma RewordStatusText(category: string, league: Option<string>, status: int, statusText: string)
    requires Contains(statusText, "not found")
    ensures Reword(ApiError(status, statusText), category, league)
            == (if TakesLeague(category) then LeagueNotFound(league) else NoLeagues)
  {
    ContainsInSuffix("API error: " + Decimal.IntToString(status) + " ", statusText, "not found");
    assert Message(ApiError(status, statusText)) == "API error: " + Decimal.IntToString(status) + " " + statusText;
  }

  /** A message lacking one character of `sub` does not contain `sub`. */
  lemma NotContainedWithout(message: string, sub: string, c: char)
    requires c in sub && c !in message
    ensures !Contains(message, sub)
  {
    if Contains(message, sub) {
      ContainedCharsOccur(message, sub);
    }
  }

  /** On a miss, an answer that is not ok raises the status error and caches nothing. */
  lemma FailedStatusNotCached(cache: MemoryCache, key: string, request: Request, now: int, later: int,
                              network: Request -> Result<Response, Thrown>, response: Response)
    requires GetCachedData(cache, key, now).None?
    requires network(request) == Ok(response) && !IsOk(response.status)
    ensures FetchWithCache(cache, key, request, now, later, network)
            == Call(Err(StatusError(response.status, response.statusText)), cache, Some(request))
  {
  }

  /** A results lookup for a table or score that the API answers with 404
      reports the league as not found, and caches nothing. */
  lemma MissingLeagueReported(cache: MemoryCache, category: string, league: Option<string>, now: int, later: int,
                              network: Request -> Result<Response, Thrown>, response: Response)
    requires TakesLeague(category)
    requires GetCachedData(cache, ResultsKey(category, league), now).None?
    requires network(ResultsRequest(category, league)) == Ok(response) && response.status == 404
    ensures GetResults(cache, category, league, now, later, network)
            == Call(Err(LeagueNotFound(league)), cache, Some(ResultsRequest(category, league)))
  {
    LeagueCategoriesNotBlank(category);
    FailedStatusNotCached(cache, ResultsKey(category, league), ResultsRequest(category, league), now, later, network, response);
    RewordNotFound(category, league);
  }

  lemma LeagueCategoriesNotBlank(category: string)
    requires TakesLeague(category)
    ensures !IsBlank(category)
  {
    assert !IsJsWhitespace(category[0]);
  }

  /** The four lookups never share a cache key. */
  lemma EndpointKeysDisjoint(c1: string, c2: string, id: string, c3: string, league: Option<string>)
    ensures MatchesKey(c1) != MatchDetailKey(c2, id)
    ensures MatchesKey(c1) != ResultsKey(c3, league) && MatchesKey(c1) != CategoriesKey
    ensures MatchDetailKey(c2, id) != ResultsKey(c3, league) && MatchDetailKey(c2, id) != CategoriesKey
    ensures ResultsKey(c3, league) != CategoriesKey
  {
    assert MatchesKey(c1)[5] == 'e' && MatchDetailKey(c2, id)[5] == '-';
    assert MatchesKey(c1)[0] == 'm' && MatchDetailKey(c2, id)[0] == 'm';
    assert ResultsKey(c3, league)[0] == 'r' && CategoriesKey[0] == 's';
  }

  /** Match lookups ignore the case of ASCII letters in the category: both the
      key and the request are those of the lower-cased category. */
  lemma MatchesIgnoreCase(category: string)
    ensures MatchesKey(category) == MatchesKey(AsciiLower(category))
    ensures MatchesRequest(category) == MatchesRequest(AsciiLower(category))
  {
    AsciiLowerIdempotent(category);
  }

  /** A league code made of league characters only is sent as it is. */
  lemma ValidCodeSent(category: string, code: string)
    requires TakesLeague(category) && code != ""
    requires forall i :: 0 <= i < |code| ==> IsLeagueChar(code[i])
    ensures ResultsRequest(category, Some(code)).league == Some(code)
  {
    CleanLeagueIdempotent(code);
  }

  /** The results key uses the league as given, so `"all"`, an empty league
      and no league share one key ... */
  lemma AllLeagueSharesKey(category: string)
    ensures ResultsKey(category, Some("all")) == ResultsKey(category, None) == ResultsKey(category, Some(""))
  {
  }

  /** ... although for tables and scores the first sends `league=all` and
      the others send no league. */
  lemma AllLeagueSentAlone(category: string)
    requires TakesLeague(category)
    ensures ResultsRequest(category, Some("all")) != ResultsRequest(category, None)
  {
    ValidCodeSent(category, "all");
  }

  /** Conversely, a code padded with whitespace sends the same request as the
      bare code ... */
  lemma PaddedLeagueSentBare(category: string, code: string, pad: string)
    requires TakesLeague(category) && code != ""
    requires forall i :: 0 <= i < |code| ==> IsLeagueChar(code[i])
    requires IsBlank(pad)
    ensures ResultsRequest(category, Some(pad + code)) == ResultsRequest(category, Some(code))
  {
    PaddingCleansAway(code, pad);
    CleanLeagueIdempotent(code);
    SameCleanSameRequest(category, pad + code, code);
  }

  /** Leagues that clean alike send the same request. */
  lemma SameCleanSameRequest(category: string, league1: string, league2: string)
    requires CleanLeague(league1) == CleanLeague(league2)
    ensures ResultsRequest(category, Some(league1)) == ResultsRequest(category, Some(league2))
  {
  }

  lemma PaddingCleansAway(code: string, pad: string)
    requires forall i :: 0 <= i < |code| ==> IsLeagueChar(code[i])
    requires IsBlank(pad)
    ensures CleanLeague(pad + code) == code
  {
    CleanLeagueKeepsLeagueChars(pad + code);
    LeagueCharsAreNotWhitespace();
    Seqs.FilterAppend(pad, code, IsLeagueChar);
    Seqs.FilterAllDropped(pad, IsLeagueChar);
    Seqs.FilterAllKept(code, IsLeagueChar);
  }

  /** ... under a different key. */
  lemma PaddedLeagueGetsOwnKey(category: string, code: string, pad: string)
    requires code != "" && pad != ""
    ensures ResultsKey(category, Some(pad + code)) != ResultsKey(category, Some(code))
  {
    assert |ResultsKey(category, Some(pad + code))| > |ResultsKey(category, Some(code))|;
  }

  /** Hence a table fetched for league `all` answers a later lookup without a
      league, within the window, from the cache and without a request. */
  lemma AllLeagueServesNoLeague(cache: MemoryCache, now: int, later: int, network: Request -> Result<Response, Thrown>,
                                now2: int, later2: int, network2: Request -> Result<Response, Thrown>)
    requires GetResults(cache, "tables", Some("all"), now, later, network).sent.Some?
    requires GetResults(cache, "tables", Some("all"), now, later, network).result.Ok?
    requires Truthy(GetResults(cache, "tables", Some("all"), now, later, network).result.value)
    requires now2 - later < CacheDuration
    ensures var first := GetResults(cache, "tables", Some("all"), now, later, network);
            var second := GetResults(first.cache, "tables", None, now2, later2, network2);
            second.result == first.result && second.sent == None
  {
    AllLeagueSharesKey("tables");
    AllLeagueSentAlone("tables");
    FetchedThenServed(cache, ResultsKey("tables", Some("all")), ResultsRequest("tables", Some("all")), now, later, network,
                      ResultsRequest("tables", None), now2, later2, network2);
  }

  /** A dash in the category lets two different detail requests share a key. */
  lemma DetailKeysCanCollide()
    ensures MatchDetailKey("a-b", "c") == MatchDetailKey("a", "b-c")
    ensures DetailRequest("a-b", "c") != DetailRequest("a", "b-c")
  {
    assert AsciiLower("a-b") == "a-b";
    assert AsciiLower("a") == "a";
  }
}
