# WeatherCity forecast view model, in Dafny

This project models the one part of the WeatherCity iOS app that holds real logic:
`WeatherContainerViewModel`. It turns a WeatherKit forecast into the
per-day display items that the container view lists. It also models the date
helpers that the view model relies on. Everything is proved with Dafny.

- `results.dfy` (`Results`): `Option` for Swift optionals, and `Result` for calls that may `throw`.
- `dates.dfy` (`Dates`): the helpers in `Date+Extensions.swift`: `endOfDay`,
  `reduceOneHourFromCurrentTime` and `isToday`, plus the start of a day.
  - Dates are whole seconds.
  - Days are fixed 86400-second Gregorian days that start at multiples of 86400.
  - The calendar's `date(byAdding:value:to:)` may return nil, so it is a function field of
    `Calendar`. `Exact(cal)` says that it always succeeds with plain arithmetic, and
    `Gregorian()` is such a calendar.
- `weather_items.dfy` (`WeatherItems`): the pure part of the view model.
  - The structs `CurrentWeatherItem`, `WeatherItem` and `RowItem`.
  - `constructCurrentWeather`, `dateWithoutTime`, the hourly query choice, today's hour
    filter and `constructRowItem`.
  - `DayForecast`, the specification of `constructDayForecast`: the items of the first
    seven days, built in order, and all or nothing when an hourly fetch throws.
  - The lemmas that state what those items are.
- `view_model.dfy` (`WeatherContainer`): the class `WeatherContainerViewModel`, with the
  published fields `showLoader`, `records` and `currentWeather`.
  - `FetchRecords` is the state transition of `fetchRecords`.
  - `ConstructDayForecast` is the source's loop, proved equal to `DayForecast`.
    `ConstructDay` is its body for one day.
- `Results` also holds `Traverse`. It is a loop that runs a throwing step on each element in
  turn and appends the results, stopping at the first error. `DayForecast` is `Traverse` with
  one day's fetch-and-build as the step.

Everything the view model takes from outside is bundled in an `Environment` value:
- the current instant `now`;
- two calendars: `Calendar.current`, used by `isToday` and `reduceOneHourFromCurrentTime`, and
  the Gregorian calendar that `dateWithoutTime` creates. Both have the same fixed days; only
  their date arithmetic, which may fail, can differ;
- the three locale formatters (hour label, weekday title, temperature string), as
  uninterpreted functions; only equality of their labels matters;
- WeatherKit's hourly fetch for the view model's coordinate, as a function from the
  query to a `Result`.

The main weather fetch is the `Result` argument of `FetchRecords`.

Two behaviours of the source are worth stating:
- On a failed fetch, `fetchRecords` clears only `showLoader`. The previous `records`
  and `currentWeather` stay; they are not cleared to "no data".
- Nothing in the code guarantees at most one selected row per day. Selection compares
  hour labels, so the model proves only the label rule itself.

## Model

| member | source | states |
|---|---|---|
| `Dates.Gregorian` | WeatherCity/Source/WeatherContainer/WeatherContainerViewModel.swift:124 | the fixed-day Gregorian calendar does exact, never-failing date arithmetic; it shows that the lemmas assuming an exact calendar are not vacuous |
| `Dates.StartOfDay` | WeatherCity/Source/WeatherContainer/WeatherContainerViewModel.swift:125 | the start of a day is a multiple of the day length, at or before the date and less than a day before it |
| `Dates.StartOfDayUnique` | WeatherCity/Source/WeatherContainer/WeatherContainerViewModel.swift:125 | exactly one day start lies within a day before any date |
| `Dates.StartOfNextDay` | WeatherCity/Source/WeatherManager/Extensions/Date+Extensions.swift:44-48 | the day after `d` starts exactly one day length after `d`'s day |
| `Dates.DayInterval` | WeatherCity/Source/WeatherContainer/WeatherContainerViewModel.swift:125-126 | the closed interval from a day's start to its last second holds exactly the dates of that day |
| `Dates.EndOfDay` | WeatherCity/Source/WeatherManager/Extensions/Date+Extensions.swift:43-51 | the result is nil exactly when adding one day fails; with exact arithmetic it is the start of the next day minus one second |
| `Dates.EndOfDayWithinDay` | WeatherCity/Source/WeatherManager/Extensions/Date+Extensions.swift:43-48 | with exact arithmetic the end of day exists, lies in `d`'s own day, and one second later the next day starts |
| `Dates.ReduceOneHourFromCurrentTime` | WeatherCity/Source/WeatherManager/Extensions/Date+Extensions.swift:31-34 | the result is the calendar's time one hour before now, or now itself when the calendar cannot subtract the hour |
| `Dates.ReduceOneHourExact` | WeatherCity/Source/WeatherManager/Extensions/Date+Extensions.swift:31-34 | with exact arithmetic the result is now minus 3600 seconds |
| `Dates.ReduceOneHourIgnoresReceiver` | WeatherCity/Source/WeatherManager/Extensions/Date+Extensions.swift:30-34 | the result does not depend on the date the helper is called on |
| `Dates.IsToday` | WeatherCity/Source/WeatherManager/Extensions/Date+Extensions.swift:36-38 | true exactly when the date lies in the calendar day that holds now |
| `WeatherItems.WeatherItem.Icon` | WeatherCity/Source/WeatherContainer/WeatherContainerViewModel.swift:189-191 | the chevron is "chevron.up" exactly when the item is collapsed, and "chevron.down" exactly when it is not |
| `WeatherItems.WeatherItem.Toggled` | WeatherCity/Source/WeatherContainer/WeatherContainerView.swift:106-110 | a header tap flips `isCollapsed` and leaves the title and rows alone |
| `WeatherItems.ToggleTwice` | WeatherCity/Source/WeatherContainer/WeatherContainerView.swift:106-110 | two taps restore the item, and every tap changes its chevron |
| `WeatherItems.Prefix` | WeatherCity/Source/WeatherContainer/WeatherContainerViewModel.swift:87-88 | `prefix(n)` keeps the first min(n, count) elements, unchanged and in order |
| `WeatherItems.ConstructCurrentWeather` | WeatherCity/Source/WeatherContainer/WeatherContainerViewModel.swift:76-80 | the summary copies the condition and icon verbatim and formats the temperature |
| `WeatherItems.DateWithoutTime` | WeatherCity/Source/WeatherContainer/WeatherContainerViewModel.swift:122-129 | the start bound is always present, and the end is missing exactly when adding a day fails |
| `WeatherItems.DateWithoutTimeExact` | WeatherCity/Source/WeatherContainer/WeatherContainerViewModel.swift:122-129 | with exact arithmetic both bounds exist, and the day runs from its start to 86399 seconds later |
| `WeatherItems.HourlyQueryFor` | WeatherCity/Source/WeatherContainer/WeatherContainerViewModel.swift:93-102 | the bounded query is chosen exactly for a day other than today whose end bound exists, and it runs from that day's start to its end |
| `WeatherItems.GregorianDayQuery` | WeatherCity/Source/WeatherContainer/WeatherContainerViewModel.swift:95-102 | with the fixed-day Gregorian calendar, a day other than today is queried from its first second to its last, and today with `.hourly` |
| `WeatherItems.QueryCoversDay` | WeatherCity/Source/WeatherContainer/WeatherContainerViewModel.swift:95-102 | with exact arithmetic, today uses the open query, and any other day's query covers exactly the seconds of that day |
| `WeatherItems.HoursAfter` | WeatherCity/Source/WeatherContainer/WeatherContainerViewModel.swift:109 | the filter keeps exactly the hours later than the cut-off and never adds any; order and multiplicity are fixed by `HoursAfterAppend` and `HoursAfterSingle` |
| `WeatherItems.HoursAfterAppend` | WeatherCity/Source/WeatherContainer/WeatherContainerViewModel.swift:109 | filtering a concatenation filters each part and keeps the parts in order, so the kept hours stay in their input order with their repeats |
| `WeatherItems.HoursAfterSingle` | WeatherCity/Source/WeatherContainer/WeatherContainerViewModel.swift:109 | a single hour is kept exactly when it is later than the cut-off |
| `WeatherItems.HoursAfterChronological` | WeatherCity/Source/WeatherContainer/WeatherContainerViewModel.swift:109 | filtering keeps the chronological order of the hours |
| `WeatherItems.HoursAfterKeepsRecent` | WeatherCity/Source/WeatherContainer/WeatherContainerViewModel.swift:109 | filtering drops nothing when every hour is already later than the cut-off |
| `WeatherItems.RetainedHours` | WeatherCity/Source/WeatherContainer/WeatherContainerViewModel.swift:108-110 | today keeps exactly the fetched hours later than one hour ago; other days keep their fetched hours unfiltered |
| `WeatherItems.RetainedHoursAppend` | WeatherCity/Source/WeatherContainer/WeatherContainerViewModel.swift:108-110 | retaining from a concatenation retains from each part in order, for today and the other days alike |
| `WeatherItems.ConstructRowItem` | WeatherCity/Source/WeatherContainer/WeatherContainerViewModel.swift:133-144 | min(24, count) rows; row k takes its label, icon and temperature from hour k; a row is selected exactly when the day is today and its label equals the label of now |
| `WeatherItems.DayForecast` | WeatherCity/Source/WeatherContainer/WeatherContainerViewModel.swift:84-120 | a successful forecast holds min(7, daily count) items |
| `Results.Traverse` | WeatherCity/Source/WeatherContainer/WeatherContainerViewModel.swift:90-118 | the throwing loop that appends one result per element: when it succeeds it holds one result per element |
| `Results.TraverseSuccess` | WeatherCity/Source/WeatherContainer/WeatherContainerViewModel.swift:90-119 | all or nothing: the loop succeeds exactly when every step succeeds, and result i is then the result of step i |
| `Results.TraverseFirstFailure` | WeatherCity/Source/WeatherContainer/WeatherContainerViewModel.swift:104-106 | a failed loop carries the error of the first step that threw, and every earlier step succeeded |
| `Results.TraverseStep` | WeatherCity/Source/WeatherContainer/WeatherContainerViewModel.swift:104-117 | one more iteration either ends the loop with the step's error or appends the step's result |
| `Results.TraverseStopsAt` | WeatherCity/Source/WeatherContainer/WeatherContainerViewModel.swift:104-106 | once a step throws after the earlier steps succeeded, the loop ends with that error whatever follows |
| `WeatherItems.DayForecastFailure` | WeatherCity/Source/WeatherContainer/WeatherContainerViewModel.swift:104-106 | the forecast fails exactly when the hourly fetch of one of the first seven days throws, and then with the error of the first such day |
| `WeatherItems.DayForecastCount` | WeatherCity/Source/WeatherContainer/WeatherContainerViewModel.swift:87-117 | exactly min(7, daily count) items, appended in the order of the daily entries |
| `WeatherItems.DayForecastItem` | WeatherCity/Source/WeatherContainer/WeatherContainerViewModel.swift:90-117 | each item has its day's weekday title, is collapsed exactly when its day is today, and has the matching chevron; its rows are built from the first 24 retained hours; today's retained hours all lie after one hour ago, and other days' hours are unfiltered; a row is selected exactly when the day is today and the row's label is the label of now |
| `WeatherItems.NoSelectionOutsideToday` | WeatherCity/Source/WeatherContainer/WeatherContainerViewModel.swift:141 | a selected row only ever occurs in today's item |
| `WeatherItems.TodayHoursRecent` | WeatherCity/Source/WeatherContainer/WeatherContainerViewModel.swift:108-110 | with exact arithmetic, today's retained hours are all later than now minus 3600 seconds and stay in chronological order |
| `WeatherContainer.FetchOutcome` | WeatherCity/Source/WeatherContainer/WeatherContainerViewModel.swift:53-74 | a successful fetch requires a successful main fetch and yields min(7, daily count) items |
| `WeatherContainer.FetchOutcomeSucceeds` | WeatherCity/Source/WeatherContainer/WeatherContainerViewModel.swift:53-73 | the fetch succeeds exactly when the main fetch and every retained day's hourly fetch succeed; the summary then copies the condition and icon, and item i is day i's item |
| `WeatherContainer.WeatherContainerViewModel.constructor` | WeatherCity/Source/WeatherContainer/WeatherContainerViewModel.swift:15-37 | a new view model shows the loader, has no records and no current weather, and keeps its coordinate |
| `WeatherContainer.WeatherContainerViewModel.FetchRecords` | WeatherCity/Source/WeatherContainer/WeatherContainerViewModel.swift:53-74 | the loader is always cleared; on success the current weather and records become the fetch outcome; on any error both keep their previous values |
| `WeatherContainer.WeatherContainerViewModel.ConstructDayForecast` | WeatherCity/Source/WeatherContainer/WeatherContainerViewModel.swift:84-120 | the loop returns exactly `DayForecast`: the items of the first seven days in order, or the first error thrown |
| `WeatherContainer.WeatherContainerViewModel.ConstructDay` | WeatherCity/Source/WeatherContainer/WeatherContainerViewModel.swift:91-117 | one iteration of the loop gives exactly the day's specified item, or the error its hourly fetch threw |

The loop body has a specification as functions and an implementation as a method.
`DayItem` and `BuildWeatherItem` (lines 91-117), `MakeRow` (lines 137-142) and `OneHourAgo`
(line 109) have no contract of their own. The rows for `ConstructDay`, `DayForecastItem`,
`ConstructRowItem` and `RetainedHours` state what they compute.

## Left out

- Concurrency is not modelled: `async`/`await`, the `MainActor.run` hops, and the
  `[weak self]` guard that skips the update once the view model is gone. `FetchRecords`
  runs as one atomic step.
- `Date.now` and `Date()` are read several times in the source: in each `isToday`, in
  `reduceOneHourFromCurrentTime` (twice) and for the label of now. The model reads a
  single `now` for the whole construction.
- Time zones, daylight saving and locale rules are not modelled. Days are fixed
  86400-second days in both `Calendar.current` and the Gregorian calendar of
  `dateWithoutTime`.
- Sub-second precision is not modelled. Swift's `Date` is a `Double` number of seconds, but
  dates here are whole seconds. So the model's closed day interval [start, start + 86399]
  covers the whole day. In the source, the bounded hourly query ends at `endOfDay`, which
  misses the fractional part of the day's last second.
- The formatters (`timeString`, the weekday title, `MeasurementFormatter` for
  temperatures) are uninterpreted functions. Rounding to whole degrees is not modelled,
  and temperatures are opaque numbers.
- WeatherKit calls are parameters rather than network requests. The hourly fetch is a
  function of the query alone, so repeating a query returns the same answer.
- `title` (the header's weekday and time string) is locale formatting of now only.
- `getWeatherForecastingIcon` is a WeatherKit lookup of one day's symbol and is not used
  by the forecast construction.
- The SwiftUI views, `LocationManager`, `WeatherManager` and the static city catalog are
  rendering, I/O or data. The one exception is the collapse toggle, modelled as
  `WeatherItem.Toggled`.
- Switching between cities is not modelled. Discarding a late result from a city that is
  no longer selected is not something the source does: each view model fetches for its
  one fixed coordinate.
