/**
 * `OpenWeatherMapService` (api/services.py): the classification of a request
 * outcome into a provider payload, and the reshaping of a payload's flat list
 * of three-hourly samples into one summary per UTC day.
 *
 * The two loops of the source (`_group_forecasts_by_day` and the loop of
 * `parse_weather_data`) are methods proved against the reference functions
 * `DistinctDates`, `HourlyOn` and `Parse`; the grouping, ordering, partition
 * and aggregate properties are lemmas about those functions.
 */
module Forecast {
  import opened Wrappers
  import Calendar
  import Grouping
  import Seqs

  // ---------------------------------------------------------------------
  // Data model
  // ---------------------------------------------------------------------

  /** One element of a sample's `weather` array. `icon` is read with `.get`, so it may be absent. */
  datatype WeatherInfo = WeatherInfo(description: string, icon: Option<string>)

  /** One element of the provider's `list`: `dt`, the `main` and `wind` fields, and `weather`. */
  datatype RawSample = RawSample(
    dt: nat,
    temp: real, tempMin: real, tempMax: real, pressure: real, humidity: real,
    windSpeed: real,
    weather: seq<WeatherInfo>)

  /** The provider's JSON object: `cod`, `message` and `list`, each possibly missing. */
  datatype Payload = Payload(cod: Option<string>, message: Option<string>, forecastList: Option<seq<RawSample>>)

  /** One entry of `hourly_forecasts`. */
  datatype HourlyForecast = HourlyForecast(
    time: string,
    temperature: real, temperatureMin: real, temperatureMax: real, pressure: real, humidity: real,
    windSpeed: real,
    description: string, icon: Option<string>)

  /** One entry of the parsed result: a date, its three aggregates and its hourly records. */
  datatype DailyForecast = DailyForecast(
    date: string,
    temperatureAvg: real, temperatureMin: real, temperatureMax: real,
    hourlyForecasts: seq<HourlyForecast>)

  /**
   * What `parse_weather_data` does: return the pair `(daily_forecasts, error)`,
   * or raise (a `KeyError` for a missing `list`, an `IndexError` for an empty
   * `weather` array).
   */
  datatype ParseOutcome = Returned(forecasts: Option<seq<DailyForecast>>, error: Option<string>) | Raised

  // ---------------------------------------------------------------------
  // _make_api_request
  // ---------------------------------------------------------------------

  /** How the outbound request ended: a decoded success body, an HTTP error status, or a transport failure. */
  datatype RequestOutcome = Success(body: Payload) | HttpError(status: int) | TransportError

  const NotFoundMessage := "City not found. Please check the city name and try again."
  const RetrieveFailedMessage := "Failed to retrieve weather data. Please try again later."
  const UnexpectedErrorMessage := "An unexpected error occurred. Please try again later."

  /** The error payload the client builds in place of a response body. */
  function ErrorPayload(cod: string, message: string): Payload {
    Payload(Some(cod), Some(message), None)
  }

  /** `_make_api_request`: a success passes the body through; every failure becomes a `cod`/`message` payload. */
  function MakeApiRequest(outcome: RequestOutcome): (data: Payload)
    ensures outcome.Success? ==> data == outcome.body
    ensures outcome == HttpError(404) ==> data == ErrorPayload("404", NotFoundMessage)
    ensures outcome.HttpError? && outcome.status != 404 ==> data == ErrorPayload("error", RetrieveFailedMessage)
    ensures outcome.TransportError? ==> data == ErrorPayload("error", UnexpectedErrorMessage)
  {
    match outcome
    case Success(body) => body
    case HttpError(status) =>
      if status == 404 then ErrorPayload("404", NotFoundMessage)
      else ErrorPayload("error", RetrieveFailedMessage)
    case TransportError => ErrorPayload("error", UnexpectedErrorMessage)
  }

  /** A failed request never passes the `cod == "200"` check, always carries a message, and parses to that message. */
  lemma FailedRequestIsRejected(outcome: RequestOutcome)
    requires !outcome.Success?
    ensures MakeApiRequest(outcome).cod != Some("200")
    ensures MakeApiRequest(outcome).message.Some?
    ensures Parse(MakeApiRequest(outcome)) == Returned(None, MakeApiRequest(outcome).message)
  {
  }

  // ---------------------------------------------------------------------
  // Hourly records and their dates
  // ---------------------------------------------------------------------

  /** `forecast['weather'][0]` raises unless the `weather` array has an element. */
  predicate WellFormed(sample: RawSample) {
    |sample.weather| > 0
  }

  predicate AllWellFormed(samples: seq<RawSample>) {
    forall i | 0 <= i < |samples| :: WellFormed(samples[i])
  }

  /** The key the source groups by: the UTC date of the sample's `dt`. */
  function SampleDate(sample: RawSample): string {
    Calendar.TimestampToDate(sample.dt)
  }

  /** The hourly record the source appends for one sample. */
  function ToHourly(sample: RawSample): HourlyForecast
    requires WellFormed(sample)
  {
    var info := sample.weather[0];
    HourlyForecast(
      Calendar.TimestampToTime(sample.dt),
      sample.temp, sample.tempMin, sample.tempMax, sample.pressure, sample.humidity,
      sample.windSpeed,
      info.description, info.icon)
  }

  /** The hourly records of `samples`, one per sample, in order. */
  function Hourly(samples: seq<RawSample>): seq<HourlyForecast>
    requires AllWellFormed(samples)
  {
    seq(|samples|, i requires 0 <= i < |samples| => ToHourly(samples[i]))
  }

  /** The UTC dates of `samples`, each once, in order of first appearance. */
  function DistinctDates(samples: seq<RawSample>): seq<string> {
    Grouping.Keys(samples, SampleDate)
  }

  /** The samples dated `date`, in input order. */
  function SamplesOn(samples: seq<RawSample>, date: string): seq<RawSample> {
    Grouping.Group(samples, SampleDate, date)
  }

  /*
   * The grouping facts below hold for every key function; they are stated
   * with the key as a parameter and used with `SampleDate`.
   */

  lemma GroupWellFormed(samples: seq<RawSample>, key: RawSample -> string, k: string)
    requires AllWellFormed(samples)
    ensures AllWellFormed(Grouping.Group(samples, key, k))
  {
    Grouping.GroupMembers(samples, key, k);
  }

  /** The hourly records of the samples whose key is `k`, in input order. */
  function HourlyOfKey(samples: seq<RawSample>, key: RawSample -> string, k: string): seq<HourlyForecast>
    requires AllWellFormed(samples)
  {
    GroupWellFormed(samples, key, k);
    Hourly(Grouping.Group(samples, key, k))
  }

  /** Each key of the samples mapped to its hourly records. */
  function HourlyByKey(samples: seq<RawSample>, key: RawSample -> string): map<string, seq<HourlyForecast>>
    requires AllWellFormed(samples)
  {
    map k | k in Grouping.Keys(samples, key) :: HourlyOfKey(samples, key, k)
  }

  lemma HourlyAppend(a: seq<RawSample>, b: seq<RawSample>)
    requires AllWellFormed(a) && AllWellFormed(b)
    ensures AllWellFormed(a + b) && Hourly(a + b) == Hourly(a) + Hourly(b)
  {
  }

  lemma HourlyOfKeySnoc(samples: seq<RawSample>, x: RawSample, key: RawSample -> string)
    requires AllWellFormed(samples) && WellFormed(x)
    ensures AllWellFormed(samples + [x])
    ensures forall k ::
      HourlyOfKey(samples + [x], key, k) == HourlyOfKey(samples, key, k) + (if key(x) == k then [ToHourly(x)] else [])
  {
    HourlyAppend(samples, [x]);
    Grouping.GroupSnoc(samples, x, key);
    forall k ensures HourlyOfKey(samples + [x], key, k)
      == HourlyOfKey(samples, key, k) + (if key(x) == k then [ToHourly(x)] else [])
    {
      GroupWellFormed(samples, key, k);
      if key(x) == k {
        HourlyAppend(Grouping.Group(samples, key, k), [x]);
      } else {
        assert Grouping.Group(samples + [x], key, k) == Grouping.Group(samples, key, k) + [];
      }
    }
  }

  lemma HourlyByKeySnoc(samples: seq<RawSample>, x: RawSample, key: RawSample -> string)
    requires AllWellFormed(samples) && WellFormed(x)
    ensures AllWellFormed(samples + [x])
    ensures var m, k := HourlyByKey(samples, key), key(x);
      HourlyByKey(samples + [x], key) == m[k := (if k in m then m[k] else []) + [ToHourly(x)]]
  {
    HourlyOfKeySnoc(samples, x, key);
    Grouping.KeysSnoc(samples, x, key);
    var m, k := HourlyByKey(samples, key), key(x);
    var grown := HourlyByKey(samples + [x], key);
    var target := m[k := (if k in m then m[k] else []) + [ToHourly(x)]];
    assert forall j :: j in grown <==> j in target;
    forall j | j in grown ensures grown[j] == target[j] {
      if j == k && k !in m {
        Grouping.GroupOfAbsentKey(samples, key, k);
        assert HourlyOfKey(samples, key, k) == [];
      }
    }
    assert grown == target;
  }

  /** `HourlyByKeySnoc` and `Grouping.KeysSnoc` for the prefix of length `i + 1`. */
  lemma ExtendPrefix(xs: seq<RawSample>, i: nat, key: RawSample -> string)
    requires i < |xs| && AllWellFormed(xs[..i]) && WellFormed(xs[i])
    ensures AllWellFormed(xs[..i + 1])
    ensures var ks, k := Grouping.Keys(xs[..i], key), key(xs[i]);
      Grouping.Keys(xs[..i + 1], key) == if k in ks then ks else ks + [k]
    ensures var m, k := HourlyByKey(xs[..i], key), key(xs[i]);
      && (k in m <==> k in Grouping.Keys(xs[..i], key))
      && HourlyByKey(xs[..i + 1], key) == m[k := (if k in m then m[k] else []) + [ToHourly(xs[i])]]
  {
    Seqs.TakeSnoc(xs, i);
    Grouping.KeysSnoc(xs[..i], xs[i], key);
    HourlyByKeySnoc(xs[..i], xs[i], key);
  }

  /** The hourly records of the samples dated `date`, in input order. */
  function HourlyOn(samples: seq<RawSample>, date: string): seq<HourlyForecast>
    requires AllWellFormed(samples)
  {
    HourlyOfKey(samples, SampleDate, date)
  }

  /** The reference content of the `defaultdict`: each date of the samples mapped to its hourly records. */
  function HourlyByDate(samples: seq<RawSample>): map<string, seq<HourlyForecast>>
    requires AllWellFormed(samples)
  {
    HourlyByKey(samples, SampleDate)
  }

  /**
   * The loop of `_group_forecasts_by_day`, for any key function: the
   * `defaultdict(list)` is the map `byDay` with its insertion order `dates`.
   * `ok` is false when a sample's `weather` array is empty, where the source
   * raises `IndexError`.
   */
  method GroupByKey(forecastList: seq<RawSample>, key: RawSample -> string)
    returns (ok: bool, dates: seq<string>, byDay: map<string, seq<HourlyForecast>>)
    ensures ok <==> AllWellFormed(forecastList)
    ensures ok ==> dates == Grouping.Keys(forecastList, key) && byDay == HourlyByKey(forecastList, key)
  {
    dates, byDay := [], map[];
    var i := 0;
    while i < |forecastList|
      invariant 0 <= i <= |forecastList|
      invariant AllWellFormed(forecastList[..i])
      invariant dates == Grouping.Keys(forecastList[..i], key)
      invariant byDay == HourlyByKey(forecastList[..i], key)
    {
      var forecast := forecastList[i];
      var date := key(forecast);
      var time := Calendar.TimestampToTime(forecast.dt);
      if |forecast.weather| == 0 {
        return false, dates, byDay;
      }
      var info := forecast.weather[0];
      var record := HourlyForecast(
        time,
        forecast.temp, forecast.tempMin, forecast.tempMax, forecast.pressure, forecast.humidity,
        forecast.windSpeed,
        info.description, info.icon);
      assert record == ToHourly(forecast);
      ExtendPrefix(forecastList, i, key);
      // `forecast_by_day[date].append(...)`: a missing date first gets an empty list
      // and joins the insertion order.
      var bucket := if date in byDay then byDay[date] else [];
      if date !in byDay {
        dates := dates + [date];
      }
      byDay := byDay[date := bucket + [record]];
      i := i + 1;
    }
    Seqs.TakeAll(forecastList);
    return true, dates, byDay;
  }

  /** `_group_forecasts_by_day`: the grouping keyed by the UTC date of each sample's `dt`. */
  method GroupForecastsByDay(forecastList: seq<RawSample>)
    returns (ok: bool, dates: seq<string>, byDay: map<string, seq<HourlyForecast>>)
    ensures ok <==> AllWellFormed(forecastList)
    ensures ok ==> dates == DistinctDates(forecastList) && byDay == HourlyByDate(forecastList)
  {
    ok, dates, byDay := GroupByKey(forecastList, SampleDate);
  }

  // ---------------------------------------------------------------------
  // _generate_daily_summary
  // ---------------------------------------------------------------------

  /** Python's `sum`: a left-to-right fold from `0.0`. */
  function Sum(xs: seq<real>): real {
    if xs == [] then 0.0 else Sum(xs[..|xs| - 1]) + xs[|xs| - 1]
  }

  /** Python's `min`: a left-to-right scan that keeps the smaller value. */
  function Min(xs: seq<real>): (m: real)
    requires |xs| > 0
    ensures m in xs
    ensures forall i | 0 <= i < |xs| :: m <= xs[i]
  {
    if |xs| == 1 then xs[0]
    else
      var m := Min(xs[..|xs| - 1]);
      assert forall i | 0 <= i < |xs| - 1 :: xs[..|xs| - 1][i] == xs[i];
      if xs[|xs| - 1] < m then xs[|xs| - 1] else m
  }

  /** Python's `max`: a left-to-right scan that keeps the larger value. */
  function Max(xs: seq<real>): (m: real)
    requires |xs| > 0
    ensures m in xs
    ensures forall i | 0 <= i < |xs| :: xs[i] <= m
  {
    if |xs| == 1 then xs[0]
    else
      var m := Max(xs[..|xs| - 1]);
      assert forall i | 0 <= i < |xs| - 1 :: xs[..|xs| - 1][i] == xs[i];
      if xs[|xs| - 1] > m then xs[|xs| - 1] else m
  }

  /** The values of `f` on `xs`, in order: the list comprehensions the summary is computed from. */
  function Project<T>(xs: seq<T>, f: T -> real): (ys: seq<real>)
    ensures |ys| == |xs| && forall i | 0 <= i < |xs| :: ys[i] == f(xs[i])
  {
    seq(|xs|, i requires 0 <= i < |xs| => f(xs[i]))
  }

  function TemperatureOf(h: HourlyForecast): real { h.temperature }
  function TemperatureMinOf(h: HourlyForecast): real { h.temperatureMin }
  function TemperatureMaxOf(h: HourlyForecast): real { h.temperatureMax }

  function Temperatures(hours: seq<HourlyForecast>): seq<real> { Project(hours, TemperatureOf) }
  function MinTemperatures(hours: seq<HourlyForecast>): seq<real> { Project(hours, TemperatureMinOf) }
  function MaxTemperatures(hours: seq<HourlyForecast>): seq<real> { Project(hours, TemperatureMaxOf) }

  /**
   * `_generate_daily_summary`: the mean of the hours' `temperature`, the least
   * `temperature_min` and the greatest `temperature_max`, with the hourly list
   * unchanged. Python raises on an empty list; the grouping never builds one.
   */
  function GenerateDailySummary(date: string, hours: seq<HourlyForecast>): (r: DailyForecast)
    requires |hours| > 0
    ensures r.date == date && r.hourlyForecasts == hours
  {
    var temperatures := Temperatures(hours);
    var minTemps := MinTemperatures(hours);
    var maxTemps := MaxTemperatures(hours);
    DailyForecast(date, Sum(temperatures) / |temperatures| as real, Min(minTemps), Max(maxTemps), hours)
  }

  /** The average times the number of hours is their summed `temperature`. */
  lemma DailySummaryAverage(date: string, hours: seq<HourlyForecast>)
    requires |hours| > 0
    ensures GenerateDailySummary(date, hours).temperatureAvg * |hours| as real == Sum(Temperatures(hours))
  {
    var s, n := Sum(Temperatures(hours)), |hours| as real;
    assert GenerateDailySummary(date, hours).temperatureAvg == s / n;
    DivideThenMultiply(s, n);
  }

  lemma DivideThenMultiply(s: real, n: real)
    requires n > 0.0
    ensures (s / n) * n == s
  {
  }

  /** The minimum is some hour's `temperature_min`, and no hour's is smaller. */
  lemma DailySummaryMin(date: string, hours: seq<HourlyForecast>)
    requires |hours| > 0
    ensures exists i :: 0 <= i < |hours| && GenerateDailySummary(date, hours).temperatureMin == hours[i].temperatureMin
    ensures forall i | 0 <= i < |hours| :: GenerateDailySummary(date, hours).temperatureMin <= hours[i].temperatureMin
  {
    var m, temps := GenerateDailySummary(date, hours).temperatureMin, MinTemperatures(hours);
    assert m == Min(temps);
    var i :| 0 <= i < |temps| && temps[i] == m;
    assert m == hours[i].temperatureMin;
  }

  /** The maximum is some hour's `temperature_max`, and no hour's is larger. */
  lemma DailySummaryMax(date: string, hours: seq<HourlyForecast>)
    requires |hours| > 0
    ensures exists i :: 0 <= i < |hours| && GenerateDailySummary(date, hours).temperatureMax == hours[i].temperatureMax
    ensures forall i | 0 <= i < |hours| :: hours[i].temperatureMax <= GenerateDailySummary(date, hours).temperatureMax
  {
    var m, temps := GenerateDailySummary(date, hours).temperatureMax, MaxTemperatures(hours);
    assert m == Max(temps);
    var i :| 0 <= i < |temps| && temps[i] == m;
    assert m == hours[i].temperatureMax;
  }

  lemma {:induction false} SumAppend(a: seq<real>, b: seq<real>)
    ensures Sum(a + b) == Sum(a) + Sum(b)
    decreases |b|
  {
    if b == [] {
      assert a + b == a;
    } else {
      assert (a + b)[..|a + b| - 1] == a + b[..|b| - 1];
      SumAppend(a, b[..|b| - 1]);
    }
  }

  /** Removing element `j` takes exactly its value off the sum. */
  lemma SumRemove(xs: seq<real>, j: nat)
    requires j < |xs|
    ensures Sum(xs) == Sum(xs[..j] + xs[j + 1..]) + xs[j]
  {
    var pre := xs[..j + 1];
    assert xs == pre + xs[j + 1..];
    assert pre[..j] == xs[..j];
    SumAppend(pre, xs[j + 1..]);
    SumAppend(xs[..j], xs[j + 1..]);
  }

  /** The sum of a projection does not depend on the order of the elements. */
  lemma {:induction false} SumProjectPermutation<T>(a: seq<T>, b: seq<T>, f: T -> real)
    requires multiset(a) == multiset(b)
    ensures Sum(Project(a, f)) == Sum(Project(b, f))
    decreases |a|
  {
    if a == [] {
      assert |b| == |multiset(b)| == 0;
    } else {
      var n := |a|;
      var j := MatchLast(a, b);
      SumProjectPermutation(a[..n - 1], b[..j] + b[j + 1..], f);
      SumProjectRemove(a, n - 1, f);
      assert a[..n - 1] + a[n..] == a[..n - 1];
      SumProjectRemove(b, j, f);
    }
  }

  /** The last element of `a` occurs in any permutation `b` of `a`, and removing both keeps them permutations. */
  lemma MatchLast<T>(a: seq<T>, b: seq<T>) returns (j: nat)
    requires a != [] && multiset(a) == multiset(b)
    ensures j < |b| && b[j] == a[|a| - 1]
    ensures multiset(a[..|a| - 1]) == multiset(b[..j] + b[j + 1..])
  {
    var x := a[|a| - 1];
    assert x in multiset(b);
    j :| 0 <= j < |b| && b[j] == x;
    assert b == b[..j] + [x] + b[j + 1..];
    assert a == a[..|a| - 1] + [x];
    assert multiset(a[..|a| - 1]) == multiset(a) - multiset{x};
    assert multiset(b[..j] + b[j + 1..]) == multiset(b) - multiset{x};
  }

  /** Removing element `j` takes exactly its projection off the projected sum. */
  lemma SumProjectRemove<T>(xs: seq<T>, j: nat, f: T -> real)
    requires j < |xs|
    ensures Sum(Project(xs, f)) == Sum(Project(xs[..j] + xs[j + 1..], f)) + f(xs[j])
  {
    SumRemove(Project(xs, f), j);
    ProjectRemove(xs, j, f);
  }

  /** Projection commutes with removing element `j`. */
  lemma ProjectRemove<T>(xs: seq<T>, j: nat, f: T -> real)
    requires j < |xs|
    ensures Project(xs[..j] + xs[j + 1..], f) == Project(xs, f)[..j] + Project(xs, f)[j + 1..]
  {
    var rest, p := xs[..j] + xs[j + 1..], Project(xs, f);
    forall i | 0 <= i < |rest| ensures Project(rest, f)[i] == (p[..j] + p[j + 1..])[i] {
      if i < j {
        assert rest[i] == xs[i];
      } else {
        assert rest[i] == xs[i + 1];
      }
    }
  }

  /** The daily aggregates do not depend on the order of the hours. */
  lemma SummaryOrderIndependent(date: string, h1: seq<HourlyForecast>, h2: seq<HourlyForecast>)
    requires |h1| > 0 && multiset(h1) == multiset(h2)
    ensures |h2| > 0
    ensures GenerateDailySummary(date, h1).temperatureAvg == GenerateDailySummary(date, h2).temperatureAvg
    ensures GenerateDailySummary(date, h1).temperatureMin == GenerateDailySummary(date, h2).temperatureMin
    ensures GenerateDailySummary(date, h1).temperatureMax == GenerateDailySummary(date, h2).temperatureMax
  {
    assert |h2| == |multiset(h2)| == |multiset(h1)| == |h1|;
    SumProjectPermutation(h1, h2, TemperatureOf);
    DailySummaryAverage(date, h1);
    DailySummaryAverage(date, h2);
    var s1, s2 := GenerateDailySummary(date, h1), GenerateDailySummary(date, h2);
    assert s1.temperatureAvg * |h1| as real == s2.temperatureAvg * |h1| as real;
    SameExtremes(h1, h2, s1, s2);
    SameExtremes(h2, h1, s2, s1);
  }

  /** The extremes of `a` are bounded by those of `b` when every hour of `a` also occurs in `b`. */
  lemma SameExtremes(a: seq<HourlyForecast>, b: seq<HourlyForecast>, sa: DailyForecast, sb: DailyForecast)
    requires |a| > 0 && |b| > 0 && multiset(a) == multiset(b)
    requires sa == GenerateDailySummary(sa.date, a) && sb == GenerateDailySummary(sb.date, b)
    ensures sb.temperatureMin <= sa.temperatureMin && sa.temperatureMax <= sb.temperatureMax
  {
    DailySummaryMin(sa.date, a);
    DailySummaryMin(sb.date, b);
    DailySummaryMax(sa.date, a);
    DailySummaryMax(sb.date, b);
    var i :| 0 <= i < |a| && sa.temperatureMin == a[i].temperatureMin;
    assert a[i] in multiset(b);
    var j :| 0 <= j < |b| && b[j] == a[i];
    var k :| 0 <= k < |a| && sa.temperatureMax == a[k].temperatureMax;
    assert a[k] in multiset(b);
    var l :| 0 <= l < |b| && b[l] == a[k];
  }

  // ---------------------------------------------------------------------
  // parse_weather_data
  // ---------------------------------------------------------------------

  /** Every date of the samples has at least one hourly record, so no summary divides by zero. */
  lemma DateHasHourly(samples: seq<RawSample>, date: string)
    requires AllWellFormed(samples) && date in DistinctDates(samples)
    ensures |HourlyOn(samples, date)| > 0
  {
    Grouping.KeysFacts(samples, SampleDate);
    var i :| 0 <= i < |samples| && SampleDate(samples[i]) == date;
    Grouping.ElementInItsGroup(samples, SampleDate, i);
  }

  /** The summaries the source builds: one per distinct date, in first-appearance order. */
  function DailyForecasts(samples: seq<RawSample>): seq<DailyForecast>
    requires AllWellFormed(samples)
  {
    var dates := DistinctDates(samples);
    seq(|dates|, i requires 0 <= i < |dates| =>
      DateHasHourly(samples, dates[i]);
      GenerateDailySummary(dates[i], HourlyOn(samples, dates[i])))
  }

  /** The reference outcome of `parse_weather_data` for a payload. */
  function Parse(data: Payload): ParseOutcome {
    if data.cod != Some("200") then Returned(None, data.message)
    else if data.forecastList.None? || !AllWellFormed(data.forecastList.value) then Raised
    else Returned(Some(DailyForecasts(data.forecastList.value)), None)
  }

  /**
   * `parse_weather_data`: rejects a payload whose `cod` is not `"200"` with its
   * `message`, then groups the samples and summarises each day in the order
   * the dates were first seen.
   */
  method ParseWeatherData(data: Payload) returns (r: ParseOutcome)
    ensures r == Parse(data)
  {
    if data.cod != Some("200") {
      return Returned(None, data.message);
    }
    if data.forecastList.None? {
      return Raised;
    }
    var samples := data.forecastList.value;
    var ok, dates, byDay := GroupForecastsByDay(samples);
    if !ok {
      return Raised;
    }
    ghost var expected := DailyForecasts(samples);
    var dailyForecasts: seq<DailyForecast> := [];
    var k := 0;
    while k < |dates|
      invariant 0 <= k <= |dates| == |expected|
      invariant dailyForecasts == expected[..k]
    {
      var date := dates[k];
      DateHasHourly(samples, date);
      var dailySummary := GenerateDailySummary(date, byDay[date]);
      assert dailySummary == expected[k];
      Seqs.TakeSnoc(expected, k);
      dailyForecasts := dailyForecasts + [dailySummary];
      k := k + 1;
    }
    Seqs.TakeAll(expected);
    return Returned(Some(dailyForecasts), None);
  }

  /** A payload whose `cod` is not `"200"` is rejected with its own `message` and no forecasts. */
  lemma RejectedPayload(data: Payload)
    requires data.cod != Some("200")
    ensures Parse(data) == Returned(None, data.message)
  {
  }

  /** Parsing a `"200"` payload with an empty list yields no entries and no error. */
  lemma EmptyListParsesToNoDays(message: Option<string>)
    ensures Parse(Payload(Some("200"), message, Some([]))) == Returned(Some([]), None)
  {
    assert DistinctDates([]) == [];
    assert |DailyForecasts([])| == 0;
  }

  /** A single sample makes one entry: its own date, its values as the aggregates, its record as the only hour. */
  lemma SingleSampleParses(x: RawSample, message: Option<string>)
    requires WellFormed(x)
    ensures Parse(Payload(Some("200"), message, Some([x]))) == Returned(Some([
      DailyForecast(SampleDate(x), x.temp, x.tempMin, x.tempMax, [ToHourly(x)])]), None)
  {
    SingleSampleGroup(x, SampleDate);
    SummaryOfOneHour(SampleDate(x), ToHourly(x));
    assert DailyForecasts([x]) == [GenerateDailySummary(SampleDate(x), [ToHourly(x)])];
  }

  /** The sample of the view's cache-miss test (api/tests/test_views.py:43-53). */
  const TestSample := RawSample(1634486400, 20.0, 18.0, 22.0, 1010.0, 80.0, 5.0, [WeatherInfo("clear sky", Some("01d"))])

  /** The day that sample makes. */
  const TestSampleDay := DailyForecast("2021-10-17", 20.0, 18.0, 22.0,
    [HourlyForecast("16:00:00", 20.0, 18.0, 22.0, 1010.0, 80.0, 5.0, "clear sky", Some("01d"))])

  /** The cache-miss test's payload parses to one day, 2021-10-17, whose only hour is 16:00:00. */
  lemma TestPayloadParses()
    ensures Parse(Payload(Some("200"), None, Some([TestSample]))) == Returned(Some([TestSampleDay]), None)
  {
    SingleSampleParses(TestSample, None);
    Calendar.TestInstant();
  }

  lemma SingleSampleGroup(x: RawSample, key: RawSample -> string)
    requires WellFormed(x)
    ensures AllWellFormed([x])
    ensures Grouping.Keys([x], key) == [key(x)] && HourlyOfKey([x], key, key(x)) == [ToHourly(x)]
  {
    Grouping.KeysSnoc([], x, key);
    Grouping.GroupSnoc([], x, key);
    assert [] + [x] == [x];
  }

  lemma SummaryOfOneHour(date: string, h: HourlyForecast)
    ensures GenerateDailySummary(date, [h]) == DailyForecast(date, h.temperature, h.temperatureMin, h.temperatureMax, [h])
  {
    assert Sum(Temperatures([h])) == h.temperature;
    assert Min(MinTemperatures([h])) == h.temperatureMin && Max(MaxTemperatures([h])) == h.temperatureMax;
  }

  /** For this provider the view's parse-error branch is dead: a `"200"` payload never parses to an error message. */
  lemma ParseOfAcceptedPayloadHasNoError(data: Payload)
    requires data.cod == Some("200")
    ensures Parse(data).Raised? || (Parse(data).error == None && Parse(data).forecasts.Some?)
  {
  }

  // ---------------------------------------------------------------------
  // Properties of the grouping
  // ---------------------------------------------------------------------

  /** The dates are distinct, every sample's date is among them, and each of them is some sample's date. */
  lemma DistinctDatesFacts(samples: seq<RawSample>)
    ensures var dates := DistinctDates(samples);
      && (forall i, j | 0 <= i < j < |dates| :: dates[i] != dates[j])
      && (forall k | 0 <= k < |samples| :: SampleDate(samples[k]) in dates)
      && (forall d | d in dates :: exists k :: 0 <= k < |samples| && SampleDate(samples[k]) == d)
  {
    Grouping.KeysFacts(samples, SampleDate);
  }

  /**
   * Sample `i` is in the hourly list of its own date, right after the records
   * of the earlier samples of that date, and the record copies its fields.
   */
  lemma SampleInItsBucket(samples: seq<RawSample>, i: nat)
    requires AllWellFormed(samples) && i < |samples|
    ensures AllWellFormed(samples[..i])
    ensures var date := SampleDate(samples[i]);
      var k := |HourlyOn(samples[..i], date)|;
      && k < |HourlyOn(samples, date)|
      && var h := HourlyOn(samples, date)[k];
      && h.time == Calendar.TimestampToTime(samples[i].dt)
      && h.temperature == samples[i].temp && h.temperatureMin == samples[i].tempMin
      && h.temperatureMax == samples[i].tempMax && h.pressure == samples[i].pressure
      && h.humidity == samples[i].humidity && h.windSpeed == samples[i].windSpeed
      && h.description == samples[i].weather[0].description && h.icon == samples[i].weather[0].icon
  {
    assert forall j | 0 <= j < i :: samples[..i][j] == samples[j];
    Grouping.ElementInItsGroup(samples, SampleDate, i);
  }

  /**
   * Two samples of the same date keep their relative order: in that date's
   * hourly list, the record of the earlier sample comes before the record of
   * the later one, each at the position after its date's earlier samples.
   */
  lemma BucketKeepsInputOrder(samples: seq<RawSample>, i: nat, j: nat)
    requires AllWellFormed(samples) && i < j < |samples|
    requires SampleDate(samples[i]) == SampleDate(samples[j])
    ensures AllWellFormed(samples[..i]) && AllWellFormed(samples[..j])
    ensures var d := SampleDate(samples[i]);
      var p, q := |HourlyOn(samples[..i], d)|, |HourlyOn(samples[..j], d)|;
      && p < q < |HourlyOn(samples, d)|
      && HourlyOn(samples, d)[p] == ToHourly(samples[i])
      && HourlyOn(samples, d)[q] == ToHourly(samples[j])
  {
    assert forall k | 0 <= k < j :: samples[..j][k] == samples[k];
    assert forall k | 0 <= k < i :: samples[..i][k] == samples[k];
    RecordsInInputOrder(samples, SampleDate, i, j);
  }

  lemma RecordsInInputOrder(samples: seq<RawSample>, key: RawSample -> string, i: nat, j: nat)
    requires AllWellFormed(samples) && i < j < |samples| && key(samples[i]) == key(samples[j])
    requires AllWellFormed(samples[..i]) && AllWellFormed(samples[..j])
    ensures var k := key(samples[i]);
      var p, q := |HourlyOfKey(samples[..i], key, k)|, |HourlyOfKey(samples[..j], key, k)|;
      && p < q < |HourlyOfKey(samples, key, k)|
      && HourlyOfKey(samples, key, k)[p] == ToHourly(samples[i])
      && HourlyOfKey(samples, key, k)[q] == ToHourly(samples[j])
  {
    var k := key(samples[i]);
    GroupWellFormed(samples, key, k);
    GroupWellFormed(samples[..i], key, k);
    GroupWellFormed(samples[..j], key, k);
    Grouping.GroupKeepsOrder(samples, key, i, j);
    Grouping.ElementInItsGroup(samples, key, i);
    Grouping.ElementInItsGroup(samples, key, j);
  }

  /**
   * The entries come in order of first appearance: the dates of any prefix of
   * the input are a prefix of the dates, and a date first seen at sample `p`
   * comes right after the dates of the samples before `p`.
   */
  lemma DatesInFirstAppearanceOrder(samples: seq<RawSample>, p: nat)
    requires p < |samples|
    ensures DistinctDates(samples[..p]) <= DistinctDates(samples)
    ensures SampleDate(samples[p]) !in DistinctDates(samples[..p]) ==>
      var n := |DistinctDates(samples[..p])|;
      n < |DistinctDates(samples)| && DistinctDates(samples)[n] == SampleDate(samples[p])
  {
    Grouping.KeysOfPrefix(samples, SampleDate, p);
    if SampleDate(samples[p]) !in DistinctDates(samples[..p]) {
      Grouping.FirstOccurrencePosition(samples, SampleDate, p);
    }
  }

  /** The days' hourly lists, one after the other. */
  function AllHourly(days: seq<DailyForecast>): seq<HourlyForecast> {
    if days == [] then [] else AllHourly(days[..|days| - 1]) + days[|days| - 1].hourlyForecasts
  }

  /** Days holding the hourly records of the keys `ks` hold, together, the records of the groups of `ks` read out in order. */
  lemma {:induction false} AllHourlyOfGroups(
    samples: seq<RawSample>, key: RawSample -> string, ks: seq<string>, days: seq<DailyForecast>)
    requires AllWellFormed(samples) && |days| == |ks|
    requires forall i | 0 <= i < |days| :: days[i].hourlyForecasts == HourlyOfKey(samples, key, ks[i])
    ensures AllWellFormed(Grouping.Concat(samples, key, ks))
    ensures AllHourly(days) == Hourly(Grouping.Concat(samples, key, ks))
    decreases |days|
  {
    if days != [] {
      var n := |days| - 1;
      AllHourlyOfGroups(samples, key, ks[..n], days[..n]);
      GroupWellFormed(samples, key, ks[n]);
      HourlyAppend(Grouping.Concat(samples, key, ks[..n]), Grouping.Group(samples, key, ks[n]));
    }
  }

  /** One entry per distinct UTC date, in order of first appearance, each holding its date's records. */
  lemma DailyForecastsEntries(samples: seq<RawSample>)
    requires AllWellFormed(samples)
    ensures |DailyForecasts(samples)| == |DistinctDates(samples)|
    ensures forall i | 0 <= i < |DailyForecasts(samples)| ::
      DailyForecasts(samples)[i].date == DistinctDates(samples)[i]
      && DailyForecasts(samples)[i].hourlyForecasts == HourlyOn(samples, DistinctDates(samples)[i])
  {
  }

  /** No two entries share a date, and every sample's date has an entry. */
  lemma DailyForecastsCoverDates(samples: seq<RawSample>)
    requires AllWellFormed(samples)
    ensures var days := DailyForecasts(samples);
      && (forall i, j | 0 <= i < j < |days| :: days[i].date != days[j].date)
      && (forall k | 0 <= k < |samples| :: exists i :: 0 <= i < |days| && days[i].date == SampleDate(samples[k]))
  {
    var days, dates := DailyForecasts(samples), DistinctDates(samples);
    DailyForecastsEntries(samples);
    DistinctDatesFacts(samples);
    forall k | 0 <= k < |samples| ensures exists i :: 0 <= i < |days| && days[i].date == SampleDate(samples[k]) {
      var i :| 0 <= i < |dates| && dates[i] == SampleDate(samples[k]);
      assert days[i].date == dates[i];
    }
  }

  /**
   * The entries partition the input: their hourly lists, one after the other,
   * are the records of a rearrangement of the samples, so every sample
   * contributes exactly one record to exactly one entry.
   */
  lemma DailyForecastsPartition(samples: seq<RawSample>)
    requires AllWellFormed(samples)
    ensures var grouped := Grouping.Concat(samples, SampleDate, DistinctDates(samples));
      && multiset(grouped) == multiset(samples)
      && AllWellFormed(grouped)
      && AllHourly(DailyForecasts(samples)) == Hourly(grouped)
    ensures |AllHourly(DailyForecasts(samples))| == |samples|
  {
    var days, dates := DailyForecasts(samples), DistinctDates(samples);
    DailyForecastsEntries(samples);
    AllHourlyOfGroups(samples, SampleDate, dates, days);
    Grouping.GroupsPartition(samples, SampleDate);
    var grouped := Grouping.Concat(samples, SampleDate, dates);
    assert |grouped| == |multiset(grouped)| == |multiset(samples)| == |samples|;
  }
}
