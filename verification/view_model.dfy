/** The state of WeatherContainer/WeatherContainerViewModel.swift: the
    published fields the view observes, the fetch that rewrites them, and
    the loop that builds the day forecast. */
module WeatherContainer {
  import opened Results
  import opened Dates
  import opened WeatherItems

  /** What a whole fetch yields: the current-weather summary and the day
      items, or the first error thrown on the way. */
  function FetchOutcome(response: Result<Weather, FetchError>, env: Environment)
    : (r: Result<(CurrentWeatherItem, seq<WeatherItem>), FetchError>)
    ensures r.Success? ==> response.Success? && |r.value.1| == Min(7, |response.value.dailyForecast|)
  {
    match response
    case Failure(e) => Failure(e)
    case Success(result) =>
      match DayForecast(result, env)
      case Failure(e) => Failure(e)
      case Success(items) => Success((ConstructCurrentWeather(result, env), items))
  }

  /** A fetch succeeds exactly when the main fetch and the hourly fetch of
      each of the first seven days succeed; then the summary copies the
      current condition and icon, and item `i` is day `i`'s item. */
  lemma FetchOutcomeSucceeds(response: Result<Weather, FetchError>, env: Environment)
    ensures FetchOutcome(response, env).Success? <==>
              response.Success? &&
              forall i :: 0 <= i < Min(7, |response.value.dailyForecast|) ==>
                DayItem(response.value.dailyForecast[i], env).Success?
    ensures FetchOutcome(response, env).Success? ==>
              FetchOutcome(response, env).value.0.condition == response.value.currentWeather.condition &&
              FetchOutcome(response, env).value.0.icon == response.value.currentWeather.symbolName &&
              forall i :: 0 <= i < |FetchOutcome(response, env).value.1| ==>
                DayItem(response.value.dailyForecast[i], env) == Success(FetchOutcome(response, env).value.1[i])
  {
    if response.Success? {
      var daily := response.value.dailyForecast;
      var days := Prefix(daily, 7);
      TraverseSuccess(days, DayStep(env));
      assert forall i :: 0 <= i < |days| ==> days[i] == daily[i];
    }
  }

  class WeatherContainerViewModel {
    var showLoader: bool
    var records: seq<WeatherItem>
    var currentWeather: Option<CurrentWeatherItem>
    const latitude: real
    const longitude: real

    /** A new view model shows the loader and holds no data yet. */
    constructor (latitude: real, longitude: real)
      ensures showLoader && records == [] && currentWeather == None
      ensures this.latitude == latitude && this.longitude == longitude
    {
      this.latitude := latitude;
      this.longitude := longitude;
      showLoader := true;
      records := [];
      currentWeather := None;
    }

    /** `fetchRecords`: `response` is what the main weather fetch for this
        coordinate returned or threw, `env.hourlyForecast` the hourly fetch.
        On success all three fields are written; on any error only the
        loader is cleared and the previous data stays. */
    method FetchRecords(response: Result<Weather, FetchError>, env: Environment)
      modifies this
      ensures !showLoader
      ensures FetchOutcome(response, env).Success? ==>
                currentWeather == Some(FetchOutcome(response, env).value.0) &&
                records == FetchOutcome(response, env).value.1
      ensures FetchOutcome(response, env).Failure? ==>
                currentWeather == old(currentWeather) && records == old(records)
    {
      if response.Failure? {
        showLoader := false;
        return;
      }
      var result := response.value;
      var current := ConstructCurrentWeather(result, env);
      var weatherItems := ConstructDayForecast(result, env);
      if weatherItems.Failure? {
        showLoader := false;
        return;
      }
      currentWeather := Some(current);
      records := weatherItems.value;
      showLoader := false;
    }

    /** `constructDayForecast`: for each of the first seven days, fetch its
        hours and append its item, stopping at the first error. */
    method ConstructDayForecast(result: Weather, env: Environment)
      returns (r: Result<seq<WeatherItem>, FetchError>)
      ensures r == DayForecast(result, env)
    {
      var weatherItems: seq<WeatherItem> := [];
      var daily := Prefix(result.dailyForecast, 7);
      var i := 0;
      while i < |daily|
        invariant 0 <= i <= |daily|
        invariant Traverse(daily[..i], DayStep(env)) == Success(weatherItems)
      {
        var item := ConstructDay(daily[i], env);
        if item.Failure? {
          TraverseStopsAt(daily, i, DayStep(env));
          return Failure(item.error);
        }
        TraverseStep(daily, i, DayStep(env));
        weatherItems := weatherItems + [item.value];
        i := i + 1;
      }
      assert daily[..i] == daily;
      return Success(weatherItems);
    }

    /** The body of the loop in `constructDayForecast` for one day: choose
        the hourly query, fetch (which may throw), drop today's hours at or
        before one hour ago, and build the day's item. */
    method ConstructDay(day: DayWeather, env: Environment) returns (r: Result<WeatherItem, FetchError>)
      ensures r == DayStep(env)(day)
    {
      var isToday := IsToday(day.date, env.now);
      var bounds := DateWithoutTime(env.gregorian, day.date);
      var query :=
        if !isToday && bounds.0.Some? && bounds.1.Some? then HourlyBetween(bounds.0.value, bounds.1.value)
        else Hourly;
      assert query == HourlyQueryFor(day, env);
      var fetched := env.hourlyForecast(query);
      if fetched.Failure? {
        return Failure(fetched.error);
      }
      var hourly := fetched.value;
      if isToday {
        hourly := HoursAfter(hourly, ReduceOneHourFromCurrentTime(env.current, env.now, env.now));
      }
      return Success(WeatherItem(env.weekdayTitle(day.date), isToday, ConstructRowItem(hourly, isToday, env)));
    }
  }
}
