# Weather forecast service: a Dafny model

This project models the core of a small Django weather service. The
service answers `GET forecast/<city_name>/` with a five-day forecast grouped
by UTC day.

- **`OpenWeatherMapService`** (`api/services.py`) turns the outcome of the HTTP request into a provider payload. It rejects payloads whose `cod` is not `"200"`. It groups the three-hourly samples of the payload by the UTC date of their timestamp, keeping dates in first-appearance order (a `defaultdict(list)`). It then summarises each day: the mean temperature, the least minimum, the greatest maximum, and the hourly records.
- **`CacheService`** (`api/cache_service.py`) wraps the framework cache. A failing read is a miss. A failing write reports `false`.
- **`WeatherForecastView.get`** (`api/views.py`) is cache-aside:
  - it returns a truthy cached value for `weather_<city>` unchanged;
  - otherwise it fetches once and answers 400 when the provider reports an error or the parse returns a message;
  - on success it serializes the forecasts, stores them for 1800 seconds and returns them.

Files:

- `wrappers.dfy`: module `Wrappers`, with `Option`.
- `seqs.dfy`: module `Seqs`, two sequence slicing facts.
- `calendar.dfy`: module `Calendar`, with the UTC arithmetic behind `_timestamp_to_date` and `_timestamp_to_time`.
  - Day numbers and proleptic Gregorian dates are proved inverse bijections.
  - The `YYYY-MM-DD` and `HH:MM:SS` strings are proved to read back as the day and the second of the day.
- `grouping.dfy`: module `Grouping`, with the semantics of an insertion-ordered `defaultdict(list)` over any key function.
  - `Keys` and `Group` are the reference definitions.
  - The lemmas cover distinct keys, first-appearance order, groups in input order, and the partition.
- `services.dfy`: module `Forecast`, covering request classification, grouping, daily summaries and parsing.
  - The two loops of the source are methods proved equal to the reference functions `HourlyByKey`, `DistinctDates` and `Parse`.
  - The grouping loop is proved once for any key (`GroupByKey`) and used with the sample's UTC date.
- `cache_service.dfy`: module `Cache`.
  - It holds the JSON-like `Value` and its Python truthiness.
  - The `CacheService` class holds the content of the process-wide cache backend and records of the reads and writes made through it. Views built without an injected cache service all share one such object.
- `views.dfy`: module `Views`.
  - A `WeatherService` class has a fetch function, a parse function and call counters.
  - The `WeatherForecastView` class's `Get` states the outcome and the new state for every branch of `get`.
  - The view tests are written out as scenario methods.

The network, the cache backend's failures and the serializer are inputs:
- what a request does for a city is a function `string -> RequestOutcome`;
- whether a cache read or write raises is a `bool` parameter of each call;
- serialization is a function `Option<seq<DailyForecast>> -> Value`.

Values the source's code raises on become `ParseOutcome.Raised`:
- a missing `list` (`KeyError`);
- a sample whose `weather` array is empty (`IndexError`).

The view lets that exception escape, which the model represents as `Response.ServerError` with no cache write.

## Model

| member | source | states |
|---|---|---|
| Forecast.MakeApiRequest | api/services.py:55-73 | A success passes the decoded body through. HTTP 404 gives cod `"404"` with the city-not-found message. Any other HTTP error gives cod `"error"` with the retrieve-failed message. A transport failure gives cod `"error"` with the unexpected-error message. |
| Forecast.FailedRequestIsRejected | api/services.py:55-73 | Every failed request yields a payload whose cod is not `"200"` and which carries a message. That payload parses to `(None, message)`. |
| Forecast.RejectedPayload | api/services.py:37-38 | A payload whose cod is not `"200"`, or is missing, parses to no forecasts with the payload's own `message`. |
| Forecast.Parse | api/services.py:34-49 | The reference outcome of parsing. A cod other than `"200"` gives `(None, message)`. A missing list or a sample with an empty `weather` array raises. Otherwise the result is the daily summaries with no error. Its properties are the lemmas in the rows below. |
| Forecast.DailyForecasts | api/services.py:44-49 | One summary per distinct date, in first-appearance order, each the summary of that date's hourly records. `DailyForecastsEntries`, `DailyForecastsCoverDates` and `DailyForecastsPartition` state this. |
| Forecast.ParseWeatherData | api/services.py:34-49 | The method equals the reference `Parse` on every payload. It covers rejection, raising on a missing list or an empty `weather` array, and one summary per date in the order the grouping yields. |
| Forecast.EmptyListParsesToNoDays | api/services.py:34-49 | A `"200"` payload with an empty list parses to `([], None)`. |
| Forecast.ParseOfAcceptedPayloadHasNoError | api/services.py:34-49 | A `"200"` payload either raises or parses to some forecasts with no error. |
| Forecast.SingleSampleParses | api/services.py:34-49 | A single sample gives exactly one day. The day has the sample's date. Its average, minimum and maximum are the sample's `temp`, `temp_min` and `temp_max`. Its only hourly record is the sample's record. |
| Forecast.TestPayloadParses | api/tests/test_views.py:43-59 | The cache-miss test's payload (one sample at 1634486400) parses to one day dated `2021-10-17`, whose hour is `16:00:00`, average 20.0, minimum 18.0 and maximum 22.0. |
| Forecast.GroupByKey | api/services.py:78-98 | The grouping loop, for any key function, returns `ok` exactly when every sample has a `weather` element. Then the insertion order is the distinct keys in first-appearance order, and each key maps to the hourly records of its samples in input order. |
| Forecast.GroupForecastsByDay | api/services.py:75-98 | This is `GroupByKey` with the UTC date of `dt` as the key. It yields the distinct dates and each date's hourly records. |
| Forecast.ExtendPrefix | api/services.py:79-97 | The one-step effect of a loop iteration on the reference keys and map, for any key function. |
| Forecast.ToHourly | api/services.py:84-97 | The hourly record of one sample: its UTC time of day and its temperatures, pressure, humidity, wind speed, and the first `weather` entry's description and icon. Defined only when `weather` is non-empty, where the source raises otherwise. `SampleInItsBucket` places it. |
| Forecast.DistinctDatesFacts | api/services.py:78-87 | The dates are pairwise distinct. Every sample's date is among them, and each of them is some sample's date. |
| Forecast.DatesInFirstAppearanceOrder | api/services.py:45-47 | The dates of any prefix of the input are a prefix of the dates. A date first seen at sample `p` is listed right after the dates of the samples before `p`. |
| Forecast.SampleInItsBucket | api/services.py:79-97 | Sample `i`'s record sits in its own date's list, right after the records of the earlier samples of that date. The record copies the sample's time, temperatures, pressure, humidity, wind speed, description and icon. |
| Forecast.BucketKeepsInputOrder | api/services.py:79-97 | For two samples `i < j` of the same date, that date's hourly list holds sample `i`'s record at an earlier position than sample `j`'s record. Each record sits right after the records of its date's earlier samples. |
| Forecast.DateHasHourly | api/services.py:109 | Every listed date has at least one hourly record, so the average never divides by zero. |
| Forecast.DailyForecastsEntries | api/services.py:44-49 | There is one summary per distinct date. Summary `i` carries date `i` and exactly that date's hourly records. |
| Forecast.DailyForecastsCoverDates | api/services.py:44-49 | No two summaries share a date, and every sample's date has a summary. |
| Forecast.DailyForecastsPartition | api/services.py:41-49 | The summaries' hourly lists, one after the other, are the records of a rearrangement (same multiset) of the samples. So every sample contributes exactly one record to exactly one summary, and there are as many records as samples. |
| Forecast.GenerateDailySummary | api/services.py:100-113 | The summary keeps the date and the hourly list unchanged. |
| Forecast.DailySummaryAverage | api/services.py:109 | The average times the number of hours equals the sum of the hours' `temperature`. |
| Forecast.DailySummaryMin | api/services.py:110 | The minimum is some hour's `temperature_min`, and no hour's is smaller. |
| Forecast.DailySummaryMax | api/services.py:111 | The maximum is some hour's `temperature_max`, and no hour's is larger. |
| Forecast.Sum | api/services.py:109 | Python's `sum`, folded from the left. `DailySummaryAverage` and `SumProjectPermutation` state what it gives the average. |
| Forecast.Temperatures | api/services.py:103 | The hours' `temperature` values in order. `Project`'s contract gives the length and each entry. |
| Forecast.MinTemperatures | api/services.py:104 | The hours' `temperature_min` values in order. `Project`'s contract gives the length and each entry. |
| Forecast.MaxTemperatures | api/services.py:105 | The hours' `temperature_max` values in order. `Project`'s contract gives the length and each entry. |
| Forecast.Min | api/services.py:110 | Python's `min` on a non-empty list is an element of the list and a lower bound of it. |
| Forecast.Max | api/services.py:111 | Python's `max` on a non-empty list is an element of the list and an upper bound of it. |
| Forecast.SumProjectPermutation | api/services.py:103-109 | The sum over the hours does not depend on their order. |
| Forecast.SummaryOrderIndependent | api/services.py:100-113 | Any permutation of the hours gives the same average, minimum and maximum. |
| Grouping.Keys | api/services.py:78-87 | The reference insertion order of a `defaultdict(list)` filled in input order. `KeysFacts`, `KeysSnoc`, `KeysOfPrefix` and `FirstOccurrencePosition` state its properties. |
| Grouping.Group | api/services.py:78-87 | The reference list a `defaultdict(list)` holds for a key: the elements with that key in input order. `GroupSnoc`, `ElementInItsGroup`, `GroupKeepsOrder` and `GroupsPartition` state its properties. |
| Grouping.KeysFacts | api/services.py:78-87 | The keys a `defaultdict` acquires are distinct. Every element's key is among them, and every key comes from an element. |
| Grouping.KeysSnoc | api/services.py:87 | Appending under a key adds the key at the end of the insertion order when it is new, and leaves the order unchanged otherwise. |
| Grouping.GroupSnoc | api/services.py:87 | Appending under a key adds the element at the end of that key's group and changes no other group. |
| Grouping.ElementInItsGroup | api/services.py:79-87 | Each element sits in its key's group right after the earlier elements with that key. |
| Grouping.GroupKeepsOrder | api/services.py:79-87 | Elements with the same key keep their input order within the group. |
| Grouping.KeysOfPrefix | api/services.py:79-87 | Keys are only ever appended: the keys of a prefix are a prefix of the keys. |
| Grouping.FirstOccurrencePosition | api/services.py:79-87 | A key first met at element `p` is listed right after the keys met before `p`. |
| Grouping.GroupsPartition | api/services.py:79-98 | The groups of the distinct keys, read out one after the other, have the same multiset of elements as the input. Every element is in exactly one group, once. |
| Calendar.TimestampToDate | api/services.py:115-117 | The `%Y-%m-%d` string of the UTC date of day `ts / 86400`. `TimestampToDateReadsBack` and `SameDateIffSameDay` state its meaning. |
| Calendar.TimestampToTime | api/services.py:119-121 | The `%H:%M:%S` string of second `ts % 86400` of the UTC day. `TimestampToTimeReadsBack` and `SameTimeIffSameSecondOfDay` state its meaning. |
| Calendar.CivilFromDaysFacts | api/services.py:115-117 | Every day number names a valid date from 1970 on whose day count is that number. |
| Calendar.CivilRoundTrip | api/services.py:115-117 | Day number to date to day number is the identity. Together with the previous row, the two conversions are inverse bijections. |
| Calendar.DaysFromCivilInjective | api/services.py:115-117 | Distinct valid dates have distinct day counts. |
| Calendar.DateStringFields | api/services.py:117 | `%Y-%m-%d` has the shape digits-dash-two digits-dash-two digits, is ten characters for years below 10000, and reads back as the date. |
| Calendar.TimestampToDateReadsBack | api/services.py:115-117 | The date string of a timestamp has the `YYYY-MM-DD` shape and reads back as the valid date whose day count is `ts / 86400`. |
| Calendar.TimestampToTimeReadsBack | api/services.py:119-121 | The time string is `HH:MM:SS` with hour below 24 and minute and second below 60, which together give `ts % 86400`. |
| Calendar.SameDateIffSameDay | api/services.py:115-117 | Two timestamps share a date string exactly when they lie in the same UTC day. |
| Calendar.SameTimeIffSameSecondOfDay | api/services.py:119-121 | Two timestamps share a time string exactly when they lie at the same second of a UTC day. |
| Calendar.DateAndTimeDetermineTimestamp | api/services.py:115-121 | The date and time strings together determine the timestamp. |
| Calendar.TestInstant | api/tests/test_views.py:47-59 | 1634486400 is `2021-10-17` at `16:00:00` UTC. |
| Cache.Truthy | api/views.py:39 | A cached value is truthy exactly when it is none of Python's false values: `None`, `False`, `0`, the empty string, the empty list and the empty object. |
| Cache.Lookup | api/cache_service.py:14-20 | A read yields a value exactly when the backend does not fail and the key is present, and then it yields the stored value. |
| Cache.ReadAfterWrite | api/cache_service.py:22-29 | After a successful write, a successful read of that key yields the written value, and other keys are unaffected. |
| Cache.CacheService.GetCachedData | api/cache_service.py:9-20 | The result is the stored value, or `None` for a missing key or a failing backend. The read is recorded in the call record `readKeys`. |
| Cache.CacheService.SetCachedData | api/cache_service.py:22-33 | The result is `true` exactly when the backend does not fail. The write is recorded in the call record `writeLog` with its key, data and timeout. The content gains the value only on success. |
| Views.CacheKey | api/views.py:35 | The key is `weather_` followed by the city name. |
| Views.CacheKeyInjective | api/views.py:35 | Different cities have different cache keys. |
| Views.IsHit | api/views.py:37-40 | A read is a hit when it returned a value and that value is truthy; `Get` serves exactly those reads from the cache. |
| Views.ReportsError | api/views.py:54 | A parse error is reported exactly when it is neither `None` nor the empty string. |
| Views.WeatherService.constructor | api/services.py:10-19 | A service is a fetch function and a parse function, with no calls made yet. |
| Views.WeatherService.OpenWeatherMap | api/services.py:28-49 | The concrete service fetches by classifying the request's outcome with `_make_api_request` and parses with `parse_weather_data`. |
| Views.WeatherService.GetWeatherData | api/services.py:13-15 | It returns the service's payload for the city and counts one fetch. |
| Views.WeatherService.ParseWeatherData | api/services.py:17-19 | It returns the service's parse of the payload and counts one parse. |
| Views.WeatherForecastView.constructor | api/views.py:25-28 | An injected service is used as given. A missing weather service becomes a fresh OpenWeatherMap client with no calls made. A missing cache service becomes the process-wide cache `backend`, the same object for every view built that way. |
| Views.WeatherForecastView.Get | api/views.py:30-68 | The key `weather_<city>` is read once. A truthy hit is returned unchanged with no fetch, parse or write. A miss fetches once. A cod other than `"200"` gives a 400 with the message or the default, with no parse and no write. Otherwise the payload is parsed once: raising gives a 500 and a non-empty error a 400, neither writing. Success writes the serialized forecasts once under the key with timeout 1800 and returns them, whether or not the write took (the cases are listed below). |
| Views.OpenWeatherMapNeverReportsParseError | api/views.py:47-56 | With the OpenWeatherMap parser, a payload that passed the view's cod check never takes the parse-error branch. |
| Views.RepeatedRequest | api/views.py:25-68 | Two requests for a city, each on a new default-built view sharing the process-wide cache, as routing builds them. When the cache already holds a truthy value for the city, the first answer is that value. When the first is answered with a truthy body and no cache call fails, the second gets the same body and its service is never asked. |
| Views.TestCacheHit | api/tests/test_views.py:25-35 | A cached list of one day is returned as the response, and the service is never called. |
| Views.TestCacheMiss | api/tests/test_views.py:40-62 | On an empty cache the service is called once, and the serialized `2021-10-17` forecast is returned. It is written once under `weather_London` with timeout 1800. |
| Views.TestCityNotFound | api/tests/test_views.py:67-76 | A 404 payload gives a 400 with `City not found`, and nothing is written. |

The cases stated by `Views.WeatherForecastView.Get`, in full:
1. The key is read once.
2. A truthy cached value is returned unchanged, with no fetch, no parse and no write. A truthy value is a non-empty list, string or object, a non-zero number, or `true`.
3. A `None` or falsy cached value is a miss, and a miss fetches exactly once.
4. A cod other than `"200"` gives a 400 with the payload's message, or with "Unknown error occurred while fetching weather data". Nothing is parsed, and the cache is untouched.
5. An accepted payload is parsed once:
   - a parse that raises gives a 500 and no write;
   - a non-empty error message gives a 400 with that message and no write.
6. Otherwise exactly one write is recorded: the serialized forecasts under `weather_<city>` with timeout 1800. The response is that body whether or not the write succeeded.

## Left out

- The HTTP call, the URL builder `_build_api_url` and the API key. The network is the function from a city to a `RequestOutcome`, and `response.json()` is assumed to decode to a `Payload`.
- The Django cache backend and its expiry. The timeout is recorded with each write but never expires an entry. Backend exceptions are the `readFails` and `writeFails` parameters, and a failed write is assumed to leave the content unchanged.
- `WeatherForecastSerializer` is an opaque function. Its conversion of every numeric field, hourly and daily, to a two-decimal string is not modelled.
- Floating point: temperatures and the other readings are exact `real`s. The mean is exact division, and Python's left-to-right float summation and rounding are not modelled.
- Logging, `PingPongView`, `WeatherSearchView`, the gunicorn configuration and the HTML template. URL routing is not modelled. `RepeatedRequest` reflects only that `as_view()` builds a new view for every request.
- Payload shape: a sample's `main` and `wind` fields are typed, so the other `KeyError`s and `TypeError`s a malformed sample can raise are not modelled. Only the missing `list` and the empty `weather` array raise.
- Missing versus null: an absent `message` key and a JSON `null` message are both `None`. The view's `data.get('message', default)` therefore returns the default in both cases, whereas Python returns `None` for an explicit `null`.
- Negative timestamps: `dt` is a `nat`. Years past 9999, which Python's `datetime` rejects, are not excluded. The date string is then longer than ten characters.
- Views.WeatherService.GetWeatherData: fetching is deterministic per city, because the fetch is a fixed function of the city.
- Python's `min` and `max` on equal values return the first of them. The model keeps the same left-to-right scan, but only the value is stated.
