/**
 * `WeatherService`: the periodic refresh of the stored weather, guarded by a
 * daily quota of API calls whose count is persisted in a call log, and the
 * mapping from the reported condition to an icon.  The HTTP APIs arrive as
 * functions; a call that throws or finds nothing yields `None`.
 */
module Weather {
  import opened Wrappers
  import WindDirection

  /** An instant on the UTC clock, in seconds. */
  type Instant = int

  const MaxApiCallsPerDay := 999
  const DefaultCity := "Tampa"
  const SecondsPerDay := 86400

  const SunIcon := "/images/weathericons/sun.gif"
  const RainIcon := "/images/weathericons/rain.gif"
  const CloudyIcon := "/images/weathericons/cloudy.gif"
  const StormIcon := "/images/weathericons/storm.gif"
  const DrizzleIcon := "/images/weathericons/drizzle.gif"
  const FoggyIcon := "/images/weathericons/foggy.gif"
  const DefaultIcon := "/images/weathericons/default.gif"

  /**
   * The icon for the reported main condition.  Every input has one, and the
   * icon tells the condition back apart: only mist, fog and haze share one,
   * and the default icon means none of the named conditions.
   */
  function IconFor(main: Option<string>): (url: string)
    ensures url == SunIcon <==> main == Some("Clear")
    ensures url == RainIcon <==> main == Some("Rain")
    ensures url == CloudyIcon <==> main == Some("Clouds")
    ensures url == StormIcon <==> main == Some("Thunderstorm")
    ensures url == DrizzleIcon <==> main == Some("Drizzle")
    ensures url == FoggyIcon <==> main == Some("Mist") || main == Some("Fog") || main == Some("Haze")
    ensures url == DefaultIcon <==>
      main !in {Some("Clear"), Some("Rain"), Some("Clouds"), Some("Thunderstorm"),
                Some("Drizzle"), Some("Mist"), Some("Fog"), Some("Haze")}
  {
    match main
    case Some("Clear") => SunIcon
    case Some("Rain") => RainIcon
    case Some("Clouds") => CloudyIcon
    case Some("Thunderstorm") => StormIcon
    case Some("Drizzle") => DrizzleIcon
    case Some("Mist") => FoggyIcon
    case Some("Fog") => FoggyIcon
    case Some("Haze") => FoggyIcon
    case _ => DefaultIcon
  }

  /** The saved weather (`WeatherModel`); numbers already rounded and rendered as text. */
  datatype WeatherModel = WeatherModel(
    city: string,
    temperature: string,
    description: Option<string>,
    windDirection: string,
    windSpeed: string,
    humidity: int,
    iconUrl: string,
    timestamp: Instant)

  datatype Coordinates = Coordinates(latitude: string, longitude: string)

  /** The `current` block of the weather API's answer. */
  datatype CurrentConditions = CurrentConditions(
    roundedTemperature: string,
    roundedWindSpeed: string,
    main: Option<string>,
    description: Option<string>,
    windDegrees: int,
    humidity: int)

  /** The geocoding and weather endpoints. */
  datatype WeatherApi = WeatherApi(
    coordinates: string -> Option<Coordinates>,
    current: Coordinates -> Option<CurrentConditions>)

  /**
   * `GetWeatherAsync`: null when the city has no coordinates, when the weather
   * call fails, or when the wind bearing cannot be converted (the exception is
   * caught); otherwise the fetched weather, stamped with the city and `now`.
   */
  function GetWeather(city: string, api: WeatherApi, now: Instant): (weather: Option<WeatherModel>)
    ensures weather.Some? <==>
      api.coordinates(city).Some? && api.current(api.coordinates(city).value).Some? &&
      WindDirection.ConvertWindDirection(api.current(api.coordinates(city).value).value.windDegrees).Some?
    ensures weather.Some? ==>
      var c := api.current(api.coordinates(city).value).value;
      weather.value.city == city && weather.value.timestamp == now &&
      weather.value.iconUrl == IconFor(c.main) &&
      weather.value.windDirection in WindDirection.Directions
  {
    match api.coordinates(city)
    case None => None
    case Some(coords) =>
      match api.current(coords)
      case None => None
      case Some(c) =>
        match WindDirection.ConvertWindDirection(c.windDegrees)
        case None => None
        case Some(direction) =>
          Some(WeatherModel(city, c.roundedTemperature, c.description, direction,
                            c.roundedWindSpeed, c.humidity, IconFor(c.main), now))
  }

  /** The call log (`WaetherApiCallLogModel`): when the count was last saved, and the count. */
  datatype CallLog = CallLog(apiCallDate: Instant, count: int)

  /** The UTC calendar day an instant falls on. */
  function UtcDay(t: Instant): int {
    t / SecondsPerDay
  }

  /**
   * `LoadApiCallCount`: the logged count if it was saved within today's UTC
   * day, the 86400 seconds from the last midnight on; otherwise, and for a
   * missing or unreadable log, 0.
   */
  function LoadApiCallCount(log: Stored<CallLog>, now: Instant): (count: int)
    ensures var midnight := now - now % SecondsPerDay;
      (log.Present? && midnight <= log.value.apiCallDate < midnight + SecondsPerDay ==> count == log.value.count) &&
      (!(log.Present? && midnight <= log.value.apiCallDate < midnight + SecondsPerDay) ==> count == 0)
  {
    if log.Present? && UtcDay(log.value.apiCallDate) == UtcDay(now) then log.value.count else 0
  }

  /** A count saved at `saved` is read back the same UTC day, and from the next day on reads as 0. */
  lemma SavedCountLastsTheDay(saved: Instant, count: int, now: Instant)
    requires saved <= now
    ensures now < (UtcDay(saved) + 1) * SecondsPerDay ==> LoadApiCallCount(Present(CallLog(saved, count)), now) == count
    ensures now >= (UtcDay(saved) + 1) * SecondsPerDay ==> LoadApiCallCount(Present(CallLog(saved, count)), now) == 0
  {
    assert UtcDay(saved) * SecondsPerDay <= saved;
    if now < (UtcDay(saved) + 1) * SecondsPerDay {
      assert UtcDay(now) == UtcDay(saved);
    } else {
      assert UtcDay(now) > UtcDay(saved);
    }
  }

  /** A missing or unreadable log starts the day at 0. */
  lemma UnreadableLogStartsAtZero(now: Instant)
    ensures LoadApiCallCount(Missing, now) == 0 && LoadApiCallCount(Unreadable, now) == 0
  {
  }

  // ---------------------------------------------------------------------------
  // The refresh, as a function of the service's count and the two files.

  datatype WeatherState = WeatherState(apiCallCount: int, weatherFile: Stored<WeatherModel>, callLog: Stored<CallLog>)

  /**
   * How a refresh ended: skipped for the quota, aborted because the saved
   * weather could not be read, fetched nothing, or saved new weather.
   */
  datatype UpdateOutcome = Skipped | Aborted | FetchFailed(city: string) | Updated(weather: WeatherModel)

  datatype Refreshed = Refreshed(state: WeatherState, outcome: UpdateOutcome)

  /**
   * `UpdateWeatherAsync`.  At the quota nothing happens at all.  The count
   * moves only on a successful fetch, by one, and is then saved so that
   * reloading it the same instant gives it back; the new weather is saved
   * too.  Any other outcome changes nothing.
   */
  function Refresh(s: WeatherState, api: WeatherApi, now: Instant): (r: Refreshed)
    ensures s.apiCallCount >= MaxApiCallsPerDay ==> r == Refreshed(s, Skipped)
    ensures r.outcome.Updated? <==> r.state.apiCallCount == s.apiCallCount + 1
    ensures !r.outcome.Updated? ==> r.state == s
    ensures s.apiCallCount < MaxApiCallsPerDay && s.weatherFile.Unreadable? ==> r == Refreshed(s, Aborted)
    ensures s.apiCallCount < MaxApiCallsPerDay && !s.weatherFile.Unreadable? ==>
      var city := if s.weatherFile.Present? then s.weatherFile.value.city else DefaultCity;
      (r.outcome.Updated? <==> GetWeather(city, api, now).Some?) &&
      (r.outcome.Updated? ==> r.outcome.weather == GetWeather(city, api, now).value) &&
      (GetWeather(city, api, now).None? ==> r == Refreshed(s, FetchFailed(city)))
    ensures r.outcome.Updated? ==>
      r.state.weatherFile == Present(r.outcome.weather) &&
      LoadApiCallCount(r.state.callLog, now) == r.state.apiCallCount
  {
    if s.apiCallCount >= MaxApiCallsPerDay then Refreshed(s, Skipped)
    else if s.weatherFile.Unreadable? then Refreshed(s, Aborted)
    else
      var city := if s.weatherFile.Present? then s.weatherFile.value.city else DefaultCity;
      match GetWeather(city, api, now)
      case None => Refreshed(s, FetchFailed(city))
      case Some(w) =>
        Refreshed(WeatherState(s.apiCallCount + 1, Present(w), Present(CallLog(now, s.apiCallCount + 1))), Updated(w))
  }

  /** The refreshed city is the saved one, else "Tampa"; a successful refresh saves weather for that same city. */
  lemma RefreshKeepsCity(s: WeatherState, api: WeatherApi, now: Instant)
    requires s.weatherFile.Present?
    ensures var r := Refresh(s, api, now);
      (r.outcome.FetchFailed? ==> r.outcome.city == s.weatherFile.value.city) &&
      (r.outcome.Updated? ==> r.state.weatherFile.value.city == s.weatherFile.value.city)
  {
  }

  /** The timer's repeated refreshes at the given instants. */
  function RunRefreshes(s: WeatherState, api: WeatherApi, times: seq<Instant>): WeatherState
    decreases |times|
  {
    if times == [] then s else RunRefreshes(Refresh(s, api, times[0]).state, api, times[1..])
  }

  /** Starting under the quota, no sequence of refreshes takes the count past it, and the count never falls. */
  lemma {:induction false} QuotaNeverExceeded(s: WeatherState, api: WeatherApi, times: seq<Instant>)
    requires s.apiCallCount <= MaxApiCallsPerDay
    ensures s.apiCallCount <= RunRefreshes(s, api, times).apiCallCount <= MaxApiCallsPerDay
    decreases |times|
  {
    if times != [] {
      QuotaNeverExceeded(Refresh(s, api, times[0]).state, api, times[1..]);
    }
  }

  /**
   * Once the quota is reached, a running service skips every later refresh,
   * on whatever day: the count is reset only when the service is constructed
   * again and reloads the log.
   */
  lemma {:induction false} QuotaNotResetWhileRunning(s: WeatherState, api: WeatherApi, times: seq<Instant>)
    requires s.apiCallCount >= MaxApiCallsPerDay
    ensures RunRefreshes(s, api, times) == s
    decreases |times|
  {
    if times != [] {
      QuotaNotResetWhileRunning(Refresh(s, api, times[0]).state, api, times[1..]);
    }
  }

  // ---------------------------------------------------------------------------
  // The service object.

  class WeatherService {
    const api: WeatherApi
    var apiCallCount: int
    /** The saved weather file. */
    var weatherFile: Stored<WeatherModel>
    /** The API call log file. */
    var callLog: Stored<CallLog>

    function State(): WeatherState
      reads this
    {
      WeatherState(apiCallCount, weatherFile, callLog)
    }

    /** Loads the count for today from the call log. */
    constructor (api: WeatherApi, weatherFile: Stored<WeatherModel>, callLog: Stored<CallLog>, now: Instant)
      ensures this.api == api
      ensures State() == WeatherState(LoadApiCallCount(callLog, now), weatherFile, callLog)
    {
      this.api := api;
      apiCallCount := LoadApiCallCount(callLog, now);
      this.weatherFile := weatherFile;
      this.callLog := callLog;
    }

    method UpdateWeather(now: Instant) returns (outcome: UpdateOutcome)
      modifies this
      ensures Refreshed(State(), outcome) == Refresh(old(State()), api, now)
    {
      var cityName := DefaultCity;
      if apiCallCount >= MaxApiCallsPerDay {
        return Skipped;
      }
      if weatherFile.Unreadable? {
        return Aborted;
      }
      if weatherFile.Present? {
        cityName := weatherFile.value.city;
      }
      var weatherData := GetWeather(cityName, api, now);
      if weatherData.None? {
        return FetchFailed(cityName);
      }
      weatherFile := Present(weatherData.value);
      apiCallCount := apiCallCount + 1;
      SaveApiCallCount(now);
      outcome := Updated(weatherData.value);
    }

    method SaveApiCallCount(now: Instant)
      modifies this
      ensures State() == old(State()).(callLog := Present(CallLog(now, apiCallCount)))
      ensures LoadApiCallCount(callLog, now) == apiCallCount
    {
      callLog := Present(CallLog(now, apiCallCount));
    }
  }
}
