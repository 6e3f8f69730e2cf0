/** The values and pure builders of WeatherContainer/WeatherContainerViewModel.swift:
    the display structs, the current-weather summary, the per-day hourly
    query, the row builder and the per-day item, with the specification of
    the whole day forecast that the view model's loop computes. */
module WeatherItems {
  import opened Results
  import opened Dates

  // ---------------------------------------------------------------------
  // Provider data (WeatherKit's `Weather`, `DayWeather`, `HourWeather`)
  // ---------------------------------------------------------------------

  /** Temperatures are opaque numbers; only the formatter looks at them. */
  datatype CurrentWeather = CurrentWeather(temperature: real, condition: string, symbolName: string)
  datatype DayWeather = DayWeather(date: Date, symbolName: string)
  datatype HourWeather = HourWeather(date: Date, temperature: real, symbolName: string)
  datatype Weather = Weather(currentWeather: CurrentWeather, dailyForecast: seq<DayWeather>)

  /** The hourly query: `.hourly`, or `.hourly(startDate:endDate:)`. */
  datatype HourlyQuery = Hourly | HourlyBetween(startDate: Date, endDate: Date)

  /** Whatever the provider throws; its detail is discarded by the view model. */
  datatype FetchError = FetchError(reason: string)

  /** What the view model reads from outside: the current instant, the
      user's current calendar (`Calendar.current`), the Gregorian calendar
      that `dateWithoutTime` creates, the locale formatters and the
      provider's hourly fetch for the view model's coordinate. */
  datatype Environment = Environment(
    now: Date,
    current: Calendar,
    gregorian: Calendar,
    timeString: Date -> string,
    weekdayTitle: Date -> string,
    temperatureString: real -> string,
    hourlyForecast: HourlyQuery -> Result<seq<HourWeather>, FetchError>)

  // ---------------------------------------------------------------------
  // Display items
  // ---------------------------------------------------------------------

  datatype CurrentWeatherItem = CurrentWeatherItem(temperature: string, condition: string, icon: string)

  datatype RowItem = RowItem(time: string, icon: string, temperature: string, isSelected: bool)

  datatype WeatherItem = WeatherItem(title: string, isCollapsed: bool, rows: seq<RowItem>)
  {
    /** The chevron shown beside the day title. */
    function Icon(): (r: string)
      ensures r == "chevron.up" <==> isCollapsed
      ensures r == "chevron.down" <==> !isCollapsed
    {
      if isCollapsed then "chevron.up" else "chevron.down"
    }

    /** The header tap in the container view flips `isCollapsed` and nothing else. */
    function Toggled(): (r: WeatherItem)
      ensures r.isCollapsed != isCollapsed
      ensures r.title == title && r.rows == rows
    {
      this.(isCollapsed := !isCollapsed)
    }
  }

  /** Tapping a header twice restores the item, and every tap flips its chevron. */
  lemma ToggleTwice(item: WeatherItem)
    ensures item.Toggled().Toggled() == item
    ensures item.Toggled().Icon() != item.Icon()
  {
  }

  // ---------------------------------------------------------------------
  // Sequence helpers (Swift's `prefix`)
  // ---------------------------------------------------------------------

  function Min(a: int, b: int): int
  {
    if a <= b then a else b
  }

  /** `prefix(n)`: the first `n` elements, or all of them when there are fewer. */
  function Prefix<T>(s: seq<T>, n: nat): (r: seq<T>)
    ensures |r| == Min(n, |s|)
    ensures r == s[..|r|]
  {
    if |s| <= n then s else s[..n]
  }

  // ---------------------------------------------------------------------
  // Current weather
  // ---------------------------------------------------------------------

  /** `constructCurrentWeather`: the condition and the icon are copied as
      they are, the temperature goes through the formatter. */
  function ConstructCurrentWeather(result: Weather, env: Environment): (item: CurrentWeatherItem)
    ensures item.condition == result.currentWeather.condition
    ensures item.icon == result.currentWeather.symbolName
    ensures item.temperature == env.temperatureString(result.currentWeather.temperature)
  {
    CurrentWeatherItem(
      env.temperatureString(result.currentWeather.temperature),
      result.currentWeather.condition,
      result.currentWeather.symbolName)
  }

  // ---------------------------------------------------------------------
  // Day bounds and the hourly query
  // ---------------------------------------------------------------------

  /** `dateWithoutTime`: the start (always present) and the end of the
      calendar day holding `d`. */
  function DateWithoutTime(cal: Calendar, d: Date): (bounds: (Option<Date>, Option<Date>))
    ensures bounds.0 == Some(StartOfDay(d))
    ensures bounds.1.None? <==> cal.dateByAdding(Day, 1, d).None?
  {
    (Some(StartOfDay(d)), EndOfDay(cal, d))
  }

  /** With exact arithmetic both bounds exist, and the day runs from its
      start to 86399 seconds later. */
  lemma DateWithoutTimeExact(cal: Calendar, d: Date)
    requires Exact(cal)
    ensures DateWithoutTime(cal, d) == (Some(StartOfDay(d)), Some(StartOfDay(d) + SecondsPerDay - 1))
  {
    assert cal.dateByAdding(Day, 1, d) == Some(d + 1 * ComponentSeconds(Day));
  }

  /** The query `constructDayForecast` issues for one day: bounded by the
      day's start and end for a day other than today whose bounds exist, the
      open `.hourly` query otherwise. */
  function HourlyQueryFor(day: DayWeather, env: Environment): (q: HourlyQuery)
    ensures q.HourlyBetween? <==>
              !IsToday(day.date, env.now) && EndOfDay(env.gregorian, day.date).Some?
    ensures q.HourlyBetween? ==>
              q.startDate == StartOfDay(day.date) && EndOfDay(env.gregorian, day.date) == Some(q.endDate)
  {
    var bounds := DateWithoutTime(env.gregorian, day.date);
    if !IsToday(day.date, env.now) && bounds.0.Some? && bounds.1.Some? then
      HourlyBetween(bounds.0.value, bounds.1.value)
    else
      Hourly
  }

  /** With exact calendar arithmetic, the query for a day other than today
      covers exactly the seconds of that day, and today uses the open query. */
  lemma QueryCoversDay(day: DayWeather, env: Environment, t: Date)
    requires Exact(env.gregorian)
    ensures IsToday(day.date, env.now) ==> HourlyQueryFor(day, env) == Hourly
    ensures !IsToday(day.date, env.now) ==>
              HourlyQueryFor(day, env).HourlyBetween? &&
              (HourlyQueryFor(day, env).startDate <= t <= HourlyQueryFor(day, env).endDate <==> SameDay(t, day.date))
  {
    DateWithoutTimeExact(env.gregorian, day.date);
    DayInterval(day.date, t);
  }

  /** With the fixed-day Gregorian calendar, a day other than today is
      queried from its first second to its last, and today with `.hourly`. */
  lemma GregorianDayQuery(day: DayWeather, env: Environment)
    ensures HourlyQueryFor(day, env.(gregorian := Gregorian())) ==
              if IsToday(day.date, env.now) then Hourly
              else HourlyBetween(StartOfDay(day.date), StartOfDay(day.date) + SecondsPerDay - 1)
  {
    DateWithoutTimeExact(Gregorian(), day.date);
  }

  // ---------------------------------------------------------------------
  // Today's hour filter
  // ---------------------------------------------------------------------

  /** The instant before which today's hours are dropped:
      `Date.now.reduceOneHourFromCurrentTime()`. */
  function OneHourAgo(env: Environment): Date
  {
    ReduceOneHourFromCurrentTime(env.current, env.now, env.now)
  }

  /** `filter { $0.date > threshold }`: the hours strictly after `threshold`, in order. */
  function HoursAfter(hours: seq<HourWeather>, threshold: Date): (r: seq<HourWeather>)
    ensures |r| <= |hours|
    ensures forall h :: h in r <==> h in hours && h.date > threshold
  {
    if hours == [] then []
    else (if hours[0].date > threshold then [hours[0]] else []) + HoursAfter(hours[1..], threshold)
  }

  /** Hours strictly ascending by date, as the provider returns them. */
  predicate Chronological(hours: seq<HourWeather>)
  {
    forall i, j :: 0 <= i < j < |hours| ==> hours[i].date < hours[j].date
  }

  /** Filtering keeps the provider's chronological order. */
  lemma {:induction false} HoursAfterChronological(hours: seq<HourWeather>, threshold: Date)
    requires Chronological(hours)
    ensures Chronological(HoursAfter(hours, threshold))
  {
    if hours != [] {
      var rest := HoursAfter(hours[1..], threshold);
      HoursAfterChronological(hours[1..], threshold);
      forall h | h in rest ensures hours[0].date < h.date {
        assert h in hours[1..];
        var j :| 0 <= j < |hours[1..]| && hours[1..][j] == h;
        assert hours[j + 1] == h;
      }
    }
  }

  /** Filtering drops nothing when every hour is already recent. */
  lemma {:induction false} HoursAfterKeepsRecent(hours: seq<HourWeather>, threshold: Date)
    requires forall i :: 0 <= i < |hours| ==> hours[i].date > threshold
    ensures HoursAfter(hours, threshold) == hours
  {
    if hours != [] {
      HoursAfterKeepsRecent(hours[1..], threshold);
      assert [hours[0]] + hours[1..] == hours;
    }
  }

  /** Filtering a concatenation filters each part and keeps them in the
      same order. */
  lemma {:induction false} HoursAfterAppend(a: seq<HourWeather>, b: seq<HourWeather>, threshold: Date)
    ensures HoursAfter(a + b, threshold) == HoursAfter(a, threshold) + HoursAfter(b, threshold)
  {
    if a == [] {
      assert a + b == b;
    } else {
      assert (a + b)[0] == a[0] && (a + b)[1..] == a[1..] + b;
      HoursAfterAppend(a[1..], b, threshold);
    }
  }

  /** A single hour is kept exactly when it is later than the cut-off. With
      `HoursAfterAppend`, this fixes the filter's result: every hour later
      than the cut-off is kept, in its place and as often as it occurs. */
  lemma HoursAfterSingle(h: HourWeather, threshold: Date)
    ensures HoursAfter([h], threshold) == if h.date > threshold then [h] else []
  {
    assert [h][1..] == [];
  }

  /** The hours a day keeps: today's are filtered against one hour ago,
      other days' are kept as fetched. */
  function RetainedHours(day: DayWeather, hourly: seq<HourWeather>, env: Environment): (r: seq<HourWeather>)
    ensures IsToday(day.date, env.now) ==> forall h :: h in r <==> h in hourly && h.date > OneHourAgo(env)
    ensures !IsToday(day.date, env.now) ==> r == hourly
  {
    if IsToday(day.date, env.now) then HoursAfter(hourly, OneHourAgo(env)) else hourly
  }

  /** Retaining hours from a concatenation retains from each part and keeps
      them in the same order, for today and for the other days alike. */
  lemma RetainedHoursAppend(day: DayWeather, a: seq<HourWeather>, b: seq<HourWeather>, env: Environment)
    ensures RetainedHours(day, a + b, env) == RetainedHours(day, a, env) + RetainedHours(day, b, env)
  {
    HoursAfterAppend(a, b, OneHourAgo(env));
  }

  // ---------------------------------------------------------------------
  // Rows
  // ---------------------------------------------------------------------

  /** One row: the hour's label, icon and formatted temperature; selected
      when the label is the label of now and the day is today. */
  function MakeRow(hour: HourWeather, isToday: bool, env: Environment): (row: RowItem)
  {
    RowItem(
      env.timeString(hour.date),
      hour.symbolName,
      env.temperatureString(hour.temperature),
      env.timeString(hour.date) == env.timeString(env.now) && isToday)
  }

  /** `constructRowItem`: the first 24 hours, each mapped to its row. */
  function ConstructRowItem(hourly: seq<HourWeather>, isToday: bool, env: Environment): (rows: seq<RowItem>)
    ensures |rows| == Min(24, |hourly|)
    ensures forall k :: 0 <= k < |rows| ==>
              rows[k].time == env.timeString(hourly[k].date) &&
              rows[k].icon == hourly[k].symbolName &&
              rows[k].temperature == env.temperatureString(hourly[k].temperature)
    ensures forall k :: 0 <= k < |rows| ==>
              (rows[k].isSelected <==> isToday && rows[k].time == env.timeString(env.now))
  {
    var kept := Prefix(hourly, 24);
    seq(|kept|, k requires 0 <= k < |kept| => MakeRow(kept[k], isToday, env))
  }

  // ---------------------------------------------------------------------
  // Day items
  // ---------------------------------------------------------------------

  /** The item built for one day from its fetched hours. */
  function BuildWeatherItem(day: DayWeather, hourly: seq<HourWeather>, env: Environment): (item: WeatherItem)
  {
    var isToday := IsToday(day.date, env.now);
    WeatherItem(
      env.weekdayTitle(day.date),
      isToday,
      ConstructRowItem(RetainedHours(day, hourly, env), isToday, env))
  }

  /** One iteration of `constructDayForecast`: fetch the day's hours with
      its query (which may throw), then build its item. */
  function DayItem(day: DayWeather, env: Environment): Result<WeatherItem, FetchError>
  {
    match env.hourlyForecast(HourlyQueryFor(day, env))
    case Failure(e) => Failure(e)
    case Success(hourly) => Success(BuildWeatherItem(day, hourly, env))
  }

  /** The loop body of `constructDayForecast` as a throwing step. */
  function DayStep(env: Environment): DayWeather -> Result<WeatherItem, FetchError>
  {
    day => DayItem(day, env)
  }

  /** The specification of `constructDayForecast`: the items of the first
      seven days, built in order, or the first error thrown. */
  function DayForecast(result: Weather, env: Environment): (r: Result<seq<WeatherItem>, FetchError>)
    ensures r.Success? ==> |r.value| == Min(7, |result.dailyForecast|)
  {
    Traverse(Prefix(result.dailyForecast, 7), DayStep(env))
  }

  // ---------------------------------------------------------------------
  // Properties of the day forecast
  // ---------------------------------------------------------------------

  /** The forecast fails exactly when the hourly fetch of one of the first
      seven days throws, and then with the error of the first such day. */
  lemma DayForecastFailure(result: Weather, env: Environment)
    ensures DayForecast(result, env).Failure? <==>
              exists i :: 0 <= i < Min(7, |result.dailyForecast|) && DayItem(result.dailyForecast[i], env).Failure?
    ensures DayForecast(result, env).Failure? ==>
              exists i :: 0 <= i < Min(7, |result.dailyForecast|) &&
                          DayItem(result.dailyForecast[i], env) == Failure(DayForecast(result, env).error) &&
                          forall j :: 0 <= j < i ==> DayItem(result.dailyForecast[j], env).Success?
  {
    var days := Prefix(result.dailyForecast, 7);
    assert forall i :: 0 <= i < |days| ==> days[i] == result.dailyForecast[i];
    TraverseSuccess(days, DayStep(env));
    if DayForecast(result, env).Failure? {
      TraverseFirstFailure(days, DayStep(env));
    }
  }

  /** One item per retained day: as many items as `min(7, days)`, item `i`
      built from day `i`. */
  lemma DayForecastCount(result: Weather, env: Environment)
    requires DayForecast(result, env).Success?
    ensures |DayForecast(result, env).value| == Min(7, |result.dailyForecast|)
    ensures forall i :: 0 <= i < |DayForecast(result, env).value| ==>
              DayItem(result.dailyForecast[i], env) == Success(DayForecast(result, env).value[i])
  {
    var days := Prefix(result.dailyForecast, 7);
    TraverseSuccess(days, DayStep(env));
    assert forall i :: 0 <= i < |days| ==> days[i] == result.dailyForecast[i];
  }

  /** What each built item and each of its rows satisfy: the item is
      collapsed exactly when its day is today, its chevron follows, its rows
      are the first 24 of the day's retained hours, today's retained hours
      all lie after one hour ago, and a row is selected exactly when the day
      is today and its label is the label of now. */
  lemma DayForecastItem(result: Weather, env: Environment, i: nat)
    requires DayForecast(result, env).Success?
    requires i < |DayForecast(result, env).value|
    ensures var day := result.dailyForecast[i];
            var item := DayForecast(result, env).value[i];
            var today := IsToday(day.date, env.now);
            var fetched := env.hourlyForecast(HourlyQueryFor(day, env));
            fetched.Success? &&
            item.title == env.weekdayTitle(day.date) &&
            item.isCollapsed == today &&
            (item.Icon() == "chevron.up" <==> today) &&
            item.rows == ConstructRowItem(RetainedHours(day, fetched.value, env), today, env) &&
            |item.rows| == Min(24, |RetainedHours(day, fetched.value, env)|) &&
            (today ==> forall h :: h in RetainedHours(day, fetched.value, env) ==> h.date > OneHourAgo(env)) &&
            (!today ==> RetainedHours(day, fetched.value, env) == fetched.value) &&
            forall k :: 0 <= k < |item.rows| ==>
              (item.rows[k].isSelected <==> today && item.rows[k].time == env.timeString(env.now))
  {
    DayForecastCount(result, env);
  }

  /** No row outside today's item is ever selected. */
  lemma NoSelectionOutsideToday(result: Weather, env: Environment, i: nat, k: nat)
    requires DayForecast(result, env).Success?
    requires i < |DayForecast(result, env).value|
    requires k < |DayForecast(result, env).value[i].rows|
    requires DayForecast(result, env).value[i].rows[k].isSelected
    ensures IsToday(result.dailyForecast[i].date, env.now)
    ensures DayForecast(result, env).value[i].isCollapsed
  {
    DayForecastItem(result, env, i);
  }

  /** With exact calendar arithmetic, today's rows come from hours later
      than `now - 3600`, in the provider's order. */
  lemma TodayHoursRecent(day: DayWeather, hourly: seq<HourWeather>, env: Environment)
    requires Exact(env.current)
    requires IsToday(day.date, env.now)
    requires Chronological(hourly)
    ensures forall h :: h in RetainedHours(day, hourly, env) ==> h.date > env.now - SecondsPerHour
    ensures Chronological(RetainedHours(day, hourly, env))
  {
    ReduceOneHourExact(env.current, env.now, env.now);
    HoursAfterChronological(hourly, OneHourAgo(env));
  }
}
