/**
 * `WeatherForecastView` (api/views.py:24-68): cache-aside orchestration of a
 * weather service and a cache service, both injected.
 *
 * A request derives the cache key from the city, returns a truthy cached
 * value unchanged, and otherwise fetches once, answers 400 when the provider
 * reports an error or the parse returns a message, and on success serializes
 * the forecasts, stores them for 1800 seconds and returns them. Whether the
 * cache backend fails is a parameter of each request; the network is the
 * function a service fetches with; serialization is an opaque function.
 */
module Views {
  import opened Wrappers
  import Forecast
  import Cache

  const CachePrefix: string := "weather_"
  const CacheTimeout: int := 1800
  const UnknownFetchError: string := "Unknown error occurred while fetching weather data"

  /** `f"weather_{city_name}"`. */
  function CacheKey(city: string): (key: string)
    ensures |key| == |CachePrefix| + |city|
    ensures key[..|CachePrefix|] == CachePrefix && key[|CachePrefix|..] == city
  {
    CachePrefix + city
  }

  /** Different cities never share a cache entry. */
  lemma CacheKeyInjective(a: string, b: string)
    requires CacheKey(a) == CacheKey(b)
    ensures a == b
  {
    assert a == CacheKey(a)[|CachePrefix|..];
  }

  /** The response of the view: a 200 with a body, a 400 with an `error` message, or the 500 of an uncaught exception. */
  datatype Response = Ok(body: Cache.Value) | BadRequest(error: string) | ServerError

  /** `if cached_data:` in the view. */
  predicate IsHit(cached: Option<Cache.Value>) {
    cached.Some? && Cache.Truthy(cached.value)
  }

  /** `if error_message:`: a parse error is reported only when it is a non-empty string. */
  predicate ReportsError(error: Option<string>)
    ensures ReportsError(error) <==> error !in {None, Some("")}
  {
    error.Some? && error.value != ""
  }

  /**
   * A `WeatherService` (api/services.py:10-19): fetching is a function of the
   * city and parsing a function of the payload; the counters record how often
   * each was called.
   */
  class WeatherService {
    const fetch: string -> Forecast.Payload
    const parse: Forecast.Payload -> Forecast.ParseOutcome
    var fetchCount: nat
    var parseCount: nat

    constructor (fetch: string -> Forecast.Payload, parse: Forecast.Payload -> Forecast.ParseOutcome)
      ensures this.fetch == fetch && this.parse == parse
      ensures fetchCount == 0 && parseCount == 0
    {
      this.fetch := fetch;
      this.parse := parse;
      fetchCount := 0;
      parseCount := 0;
    }

    /**
     * `OpenWeatherMapService` (api/services.py:22-49): `request` is what the
     * network does for a city, the payload is its classification by
     * `_make_api_request`, and parsing is `parse_weather_data`.
     */
    constructor OpenWeatherMap(request: string -> Forecast.RequestOutcome)
      ensures forall city :: fetch(city) == Forecast.MakeApiRequest(request(city))
      ensures forall data :: parse(data) == Forecast.Parse(data)
      ensures fetchCount == 0 && parseCount == 0
    {
      fetch := city => Forecast.MakeApiRequest(request(city));
      parse := Forecast.Parse;
      fetchCount := 0;
      parseCount := 0;
    }

    /** `get_weather_data`. */
    method GetWeatherData(city: string) returns (data: Forecast.Payload)
      modifies this`fetchCount
      ensures data == fetch(city) && fetchCount == old(fetchCount) + 1
    {
      fetchCount := fetchCount + 1;
      data := fetch(city);
    }

    /** `parse_weather_data`. */
    method ParseWeatherData(data: Forecast.Payload) returns (r: Forecast.ParseOutcome)
      modifies this`parseCount
      ensures r == parse(data) && parseCount == old(parseCount) + 1
    {
      parseCount := parseCount + 1;
      r := parse(data);
    }
  }

  class WeatherForecastView {
    const weatherService: WeatherService
    const cacheService: Cache.CacheService
    /** `WeatherForecastSerializer(daily_forecasts, many=True).data`. */
    const serialize: Option<seq<Forecast.DailyForecast>> -> Cache.Value

    /**
     * `__init__` (api/views.py:25-28): an injected service is used as given.
     * A missing weather service is replaced by a fresh OpenWeatherMap client
     * over `request`. A missing cache service is replaced by `CacheService()`,
     * which holds no state of its own and reads and writes the process-wide
     * cache: `backend` stands for that shared cache, so every view built
     * without a cache service sees the same entries.
     */
    constructor (
      weatherService: Option<WeatherService>, cacheService: Option<Cache.CacheService>,
      request: string -> Forecast.RequestOutcome,
      serialize: Option<seq<Forecast.DailyForecast>> -> Cache.Value,
      backend: Cache.CacheService)
      ensures weatherService.Some? ==> this.weatherService == weatherService.value
      ensures weatherService.None? ==>
        && fresh(this.weatherService)
        && (forall city :: this.weatherService.fetch(city) == Forecast.MakeApiRequest(request(city)))
        && (forall data :: this.weatherService.parse(data) == Forecast.Parse(data))
        && this.weatherService.fetchCount == 0 && this.weatherService.parseCount == 0
      ensures this.cacheService == if cacheService.Some? then cacheService.value else backend
      ensures this.serialize == serialize
    {
      if weatherService.Some? {
        this.weatherService := weatherService.value;
      } else {
        this.weatherService := new WeatherService.OpenWeatherMap(request);
      }
      if cacheService.Some? {
        this.cacheService := cacheService.value;
      } else {
        this.cacheService := backend;
      }
      this.serialize := serialize;
    }

    /**
     * `get` (api/views.py:30-68). `readFails` and `writeFails` say whether
     * the cache backend raises on this request's read and write.
     */
    method Get(city: string, readFails: bool, writeFails: bool) returns (resp: Response)
      modifies weatherService, cacheService
      ensures cacheService.readKeys == old(cacheService.readKeys) + [CacheKey(city)]
      // A truthy cached value is served as it is: no fetch, no parse, no write.
      ensures var cached := Cache.Lookup(old(cacheService.entries), CacheKey(city), readFails);
        IsHit(cached) ==>
          && resp == Ok(cached.value)
          && weatherService.fetchCount == old(weatherService.fetchCount)
          && weatherService.parseCount == old(weatherService.parseCount)
          && cacheService.writeLog == old(cacheService.writeLog)
          && cacheService.entries == old(cacheService.entries)
      // Otherwise the service is asked exactly once.
      ensures !IsHit(Cache.Lookup(old(cacheService.entries), CacheKey(city), readFails)) ==>
        weatherService.fetchCount == old(weatherService.fetchCount) + 1
      // A provider error is a 400 with its message (or the default one); nothing is parsed or stored.
      ensures var data := weatherService.fetch(city);
        !IsHit(Cache.Lookup(old(cacheService.entries), CacheKey(city), readFails)) && data.cod != Some("200") ==>
          && resp == BadRequest(data.message.GetOr(UnknownFetchError))
          && weatherService.parseCount == old(weatherService.parseCount)
          && cacheService.writeLog == old(cacheService.writeLog)
          && cacheService.entries == old(cacheService.entries)
      // An accepted payload is parsed exactly once.
      ensures var data := weatherService.fetch(city);
        !IsHit(Cache.Lookup(old(cacheService.entries), CacheKey(city), readFails)) && data.cod == Some("200") ==>
          weatherService.parseCount == old(weatherService.parseCount) + 1
      // A parse that raises escapes the view (a 500); nothing is stored.
      ensures var data := weatherService.fetch(city);
        !IsHit(Cache.Lookup(old(cacheService.entries), CacheKey(city), readFails)) && data.cod == Some("200")
        && weatherService.parse(data).Raised? ==>
          && resp == ServerError
          && cacheService.writeLog == old(cacheService.writeLog)
          && cacheService.entries == old(cacheService.entries)
      // A reported parse error is a 400 with that message; nothing is stored.
      ensures var data := weatherService.fetch(city);
        var parsed := weatherService.parse(data);
        !IsHit(Cache.Lookup(old(cacheService.entries), CacheKey(city), readFails)) && data.cod == Some("200")
        && parsed.Returned? && ReportsError(parsed.error) ==>
          && resp == BadRequest(parsed.error.value)
          && cacheService.writeLog == old(cacheService.writeLog)
          && cacheService.entries == old(cacheService.entries)
      // Success: one write of the serialized forecasts under the key for 1800
      // seconds, and the response is that same body whether or not the write took.
      ensures var data := weatherService.fetch(city);
        var parsed := weatherService.parse(data);
        !IsHit(Cache.Lookup(old(cacheService.entries), CacheKey(city), readFails)) && data.cod == Some("200")
        && parsed.Returned? && !ReportsError(parsed.error) ==>
          var body := serialize(parsed.forecasts);
          && resp == Ok(body)
          && cacheService.writeLog == old(cacheService.writeLog) + [Cache.CacheWrite(CacheKey(city), body, CacheTimeout)]
          && cacheService.entries == (if writeFails then old(cacheService.entries) else old(cacheService.entries)[CacheKey(city) := body])
    {
      var cacheKey := CacheKey(city);
      var cachedData := cacheService.GetCachedData(cacheKey, readFails);
      if IsHit(cachedData) {
        return Ok(cachedData.value);
      }
      var data := weatherService.GetWeatherData(city);
      if data.cod != Some("200") {
        return BadRequest(data.message.GetOr(UnknownFetchError));
      }
      var parsed := weatherService.ParseWeatherData(data);
      if parsed.Raised? {
        return ServerError;
      }
      if ReportsError(parsed.error) {
        return BadRequest(parsed.error.value);
      }
      var responseData := serialize(parsed.forecasts);
      var stored := cacheService.SetCachedData(cacheKey, responseData, CacheTimeout, writeFails);
      return Ok(responseData);
    }
  }

  /**
   * For the OpenWeatherMap service the parse-error branch of `get` is dead:
   * once the view has checked `cod`, parsing either raises or returns
   * forecasts with no message.
   */
  lemma OpenWeatherMapNeverReportsParseError(service: WeatherService, data: Forecast.Payload)
    requires forall d :: service.parse(d) == Forecast.Parse(d)
    requires data.cod == Some("200")
    ensures service.parse(data).Raised? || !ReportsError(service.parse(data).error)
  {
    Forecast.ParseOfAcceptedPayloadHasNoError(data);
  }

  /**
   * Cache-aside across requests. Each request is served by a new view built
   * with the default services, all sharing the process-wide cache `backend`.
   * A truthy value already cached for the city is the first answer. When the
   * first request is answered with a truthy body and no cache call fails, the
   * second request for the same city is answered with the same body from the
   * cache, and its service is never asked.
   */
  method RepeatedRequest(
    backend: Cache.CacheService, request: string -> Forecast.RequestOutcome,
    serialize: Option<seq<Forecast.DailyForecast>> -> Cache.Value, city: string)
    returns (first: Response, second: Response, secondFetches: nat)
    modifies backend
    ensures IsHit(Cache.Lookup(old(backend.entries), CacheKey(city), false)) ==>
      first == Ok(old(backend.entries)[CacheKey(city)])
    ensures first.Ok? && Cache.Truthy(first.body) ==> second == first && secondFetches == 0
  {
    var view1 := new WeatherForecastView(None, None, request, serialize, backend);
    first := view1.Get(city, false, false);
    var view2 := new WeatherForecastView(None, None, request, serialize, backend);
    second := view2.Get(city, false, false);
    secondFetches := view2.weatherService.fetchCount;
  }

  /*
   * The view tests (api/tests/test_views.py), each with its stubbed services.
   */

  /** A truthy cached list is served as it is and the service is never asked (lines 25-35). */
  method TestCacheHit(request: string -> Forecast.RequestOutcome, serialize: Option<seq<Forecast.DailyForecast>> -> Cache.Value)
    returns (resp: Response, fetches: nat)
    ensures resp == Ok(Cache.List([Cache.Object([("date", Cache.Text("2024-10-17")), ("temperature_avg", Cache.Number(25.0))])]))
    ensures fetches == 0
  {
    var cached := Cache.List([Cache.Object([("date", Cache.Text("2024-10-17")), ("temperature_avg", Cache.Number(25.0))])]);
    var cache := new Cache.CacheService(map[CacheKey("London") := cached]);
    var view := new WeatherForecastView(None, None, request, serialize, cache);
    assert IsHit(Cache.Lookup(cache.entries, CacheKey("London"), false));
    resp := view.Get("London", false, false);
    fetches := view.weatherService.fetchCount;
  }

  /** On a miss the provider's payload is parsed, serialized, stored under the key and returned (lines 40-62). */
  method TestCacheMiss(serialize: Option<seq<Forecast.DailyForecast>> -> Cache.Value)
    returns (resp: Response, fetches: nat, writeLog: seq<Cache.CacheWrite>)
    ensures resp == Ok(serialize(Some([Forecast.TestSampleDay])))
    ensures fetches == 1
    ensures writeLog == [Cache.CacheWrite("weather_London", serialize(Some([Forecast.TestSampleDay])), 1800)]
  {
    var payload := Forecast.Payload(Some("200"), None, Some([Forecast.TestSample]));
    Forecast.TestPayloadParses();
    var service := new WeatherService(city => payload, Forecast.Parse);
    var cache := new Cache.CacheService(map[]);
    var view := new WeatherForecastView(Some(service), Some(cache), _ => Forecast.TransportError, serialize, cache);
    assert service.fetch("London") == payload;
    assert service.parse(payload) == Forecast.Returned(Some([Forecast.TestSampleDay]), None);
    assert CacheKey("London") == "weather_London";
    resp := view.Get("London", false, false);
    fetches := service.fetchCount;
    writeLog := cache.writeLog;
  }

  /** A provider error is a 400 with the provider's message, and nothing is stored (lines 67-76). */
  method TestCityNotFound(serialize: Option<seq<Forecast.DailyForecast>> -> Cache.Value)
    returns (resp: Response, writeLog: seq<Cache.CacheWrite>)
    ensures resp == BadRequest("City not found")
    ensures writeLog == []
  {
    var payload := Forecast.Payload(Some("404"), Some("City not found"), None);
    var service := new WeatherService(city => payload, Forecast.Parse);
    var cache := new Cache.CacheService(map[]);
    var view := new WeatherForecastView(Some(service), Some(cache), _ => Forecast.TransportError, serialize, cache);
    resp := view.Get("UnknownCity", false, false);
    writeLog := cache.writeLog;
  }
}
