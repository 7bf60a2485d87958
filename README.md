# MeteoApp weather stream, modelled in Dafny

MeteoApp is an Angular dashboard. It replays a day of weather data (temperature and power samples, each stamped with a time of day) as if it arrived live.

The `DataWeatherService` works in three steps:
- It merges the times of the two series into one sorted timeline.
- It starts at the position of the current time of day.
- Every five seconds it publishes one record. The record holds:
  - the temperature in degrees Celsius;
  - the energy of that tick in kWh;
  - the running mean temperature;
  - the accumulated energy.

The `DashboardWeatherComponent` subscribes to these records. From them it keeps the displayed values and two growing chart series. It also thins out the x-axis labels as the charts fill up.

The model is organised in these modules:

- `WeatherModel` (`weather_model.dfy`): the value types.
  - A sample's value after `Number(...)` is a `Reading`: a finite number or NaN.
  - A time of day is a `Time`: seconds since midnight.
  - `Record` is the published record. `None` stands for JavaScript's `null`.
- `Timeline` (`timeline.dfy`): the merge in `load` and `getCurrentIndex`.
  - The merge is a method with loops over a JavaScript `Set`, kept as a repetition-free sequence in insertion order. A chronological sort follows.
  - The start position is a function.
- `Aggregation` (`aggregation.dfy`): the pieces of one timer tick.
  - `find`, the two unit conversions, the JavaScript truthiness tests, the running totals and the mean.
- `DataWeatherService` (`data_weather_service.dfy`):
  - the service as a class `WeatherStream`. Its fields are the series, the timeline, the cursor `index`, the subject's current value and the three totals that `startStreaming` keeps in its closure;
  - `Tick` is the timer body;
  - `Run` fires the timer a number of times;
  - the functions `TotalsAfter` and `Replay` say what a run of ticks computes;
  - `Stream` is what a subscriber receives from a fresh service.
- `DashboardWeather` (`dashboard_weather.dfy`):
  - the component as a class whose `OnValue` is the subscriber of `ngOnInit`;
  - `getDynamicIntervalSeconds` and the label rule of `xAxisTickFormatting` as functions of `chartDataLength`.
- `TimeOfDay` (`time_of_day.dfy`): the zero-padded "HH:MM:SS" strings the data and the clock use.
  - The timeline is sorted with `Date` values (data-weather.service.ts:49-50) but searched with string comparison (line 121).
  - For these strings both orders agree. This is why the rest of the model can use seconds since midnight.
- `App` (`app.dfy`): the component subscribed to the stream.

The energy of one tick is `mw * 1000 * (5 / 3600)` (data-weather.service.ts:69), which gives 125/9 ≈ 13.89 kWh for one tick at 10 MW. `DataWeatherService.TwoTickExample` proves the code's numbers for two ticks.

## Model

| member | source | states |
|---|---|---|
| Timeline.Insert | src/app/core/services/data-weather.service.ts:48-51 | inserting a new time into a strictly increasing timeline keeps it strictly increasing, adds exactly one element, and the contents become the old contents plus that time |
| Timeline.SortTimes | src/app/core/services/data-weather.service.ts:48-51 | the chronological sort of the set's distinct times is strictly increasing, has the same length and holds exactly the same times |
| Timeline.MergeTimeline | src/app/core/services/data-weather.service.ts:45-51 | `allTimes` is strictly increasing (sorted, no repeats), a time is in it iff some temperature or power sample has that time, and two empty series give an empty timeline |
| Timeline.TimelineDeterminedByTimes | src/app/core/services/data-weather.service.ts:45-51 | two strictly increasing timelines with the same times are equal, so the merged timeline depends only on the union of the two series' times |
| Timeline.FindIndexAtLeast | src/app/core/services/data-weather.service.ts:121 | `findIndex` returns the first position whose time is at or after `now`, and -1 iff every time is earlier |
| Timeline.StartIndex | src/app/core/services/data-weather.service.ts:117-126 | the start is the first time at or after `now` when there is one, the last position when every time is earlier, 0 on an empty timeline, and always in bounds for a non-empty one |
| Timeline.StartIndexIsLowerBound | src/app/core/services/data-weather.service.ts:121-123 | on a sorted timeline, a position is before the start iff its time is earlier than `now` |
| Aggregation.Find | src/app/core/services/data-weather.service.ts:82-83 | `find` yields nothing iff no sample has the time, and otherwise the first sample with that time |
| Aggregation.Celsius | src/app/core/services/data-weather.service.ts:86 | the deci-kelvin value is recovered from the Celsius one (`(c + 273.15) * 10 == raw`); NaN in iff NaN out |
| Aggregation.MwToKwh | src/app/core/services/data-weather.service.ts:69 | the energy divided by the tick's length in hours is the power in kW; NaN, zero and positive in iff out |
| Aggregation.Average | src/app/core/services/data-weather.service.ts:96 | the mean is null iff no temperature was counted, and otherwise times the count gives the sum |
| Aggregation.CountsTemperature | src/app/core/services/data-weather.service.ts:92 | `tempC !== null && !isNaN(tempC)`: null and NaN are not counted; `DataWeatherService.TemperatureAtCounts` proves that the tick's temperature counts iff the first sample at that time is a number |
| Aggregation.CountsEnergy | src/app/core/services/data-weather.service.ts:90 | `if (energyKwh)` is falsy for null, NaN and 0; `DataWeatherService.EnergyAtCounts` proves that the tick's energy counts iff the first power sample at that time is a non-zero number |
| Aggregation.Accumulate | src/app/core/services/data-weather.service.ts:90-95 | one tick raises the temperature count by at most one and leaves the sum alone when the count stays; `AccumulateTemperature` and `AccumulateEnergy` state its exact effect |
| Aggregation.AccumulateTemperature | src/app/core/services/data-weather.service.ts:92-95 | the count goes up by one exactly when the temperature is present and not NaN, and the sum by that temperature; otherwise both stay |
| Aggregation.AccumulateEnergy | src/app/core/services/data-weather.service.ts:90 | the accumulated energy changes iff the tick's energy is truthy (present, not NaN, not 0), and then by that energy; a non-negative energy never lowers it |
| DataWeatherService.ReplayShape | src/app/core/services/data-weather.service.ts:76-108 | a run of ticks over the times `ts` publishes one record per time, the k-th built from the k-th time and the totals after the first k + 1 ticks |
| DataWeatherService.ReplayInTimeOrder | src/app/core/services/data-weather.service.ts:77-108 | ticks over a strictly increasing timeline publish records in strictly increasing time order |
| DataWeatherService.TemperatureAt | src/app/core/services/data-weather.service.ts:82-86 | the tick's temperature is null iff no temperature sample has the time, and otherwise the Celsius value of the first sample with that time |
| DataWeatherService.EnergyAt | src/app/core/services/data-weather.service.ts:83-87 | the tick's energy is null iff no power sample has the time, and otherwise the kWh of the first sample with that time |
| DataWeatherService.Normalized | src/app/core/services/data-weather.service.ts:96-105 | the published record has the tick's time, a mean that is null iff no temperature was counted and otherwise times the count gives the sum, and the accumulated energy; `NormalizedReadings` gives its `value` and `power` |
| DataWeatherService.NormalizedReadings | src/app/core/services/data-weather.service.ts:99-102 | the published record's `value` and `power` are the temperature and the energy the tick finds at its time |
| DataWeatherService.TimesInOrder | src/app/core/services/data-weather.service.ts:77-108 | records stamped with consecutive positions of a sorted timeline are in strictly increasing time order |
| DataWeatherService.TemperatureAtCounts | src/app/core/services/data-weather.service.ts:82-95 | the tick's temperature is null iff no sample has the time, and it counts toward the mean iff the first sample at that time is a number |
| DataWeatherService.EnergyAtCounts | src/app/core/services/data-weather.service.ts:83-90 | the tick's energy adds to the total iff the first power sample at that time is a number other than 0 |
| DataWeatherService.CountNonDecreasing | src/app/core/services/data-weather.service.ts:92-95 | the temperature count after a prefix of the ticks is at most the count after all of them |
| DataWeatherService.EnergyNonDecreasing | src/app/core/services/data-weather.service.ts:87-90 | when no power sample is negative, the accumulated energy after a prefix of the ticks is at most the energy after all of them |
| DataWeatherService.NegativePowerLowersEnergy | src/app/core/services/data-weather.service.ts:90 | the code does not enforce that energy only grows: one sample of -1 MW brings the accumulated energy below zero |
| DataWeatherService.TwoTickExample | src/app/core/services/data-weather.service.ts:69-105 | two ticks at 10:00:00 and 10:00:05 with 2981.5/2982.5 deci-kelvin and 10/20 MW publish 25.0 and 25.1 degrees, mean 25.05, energies 125/9 and 250/9 kWh, total 125/3 kWh |
| DataWeatherService.WeatherStream.constructor | src/app/core/services/data-weather.service.ts:21-74 | once the data arrives, the timeline is the strictly increasing merge of the series' times, the cursor is `StartIndex` for `now`, the totals are zero and the subject holds null |
| DataWeatherService.WeatherStream.Tick | src/app/core/services/data-weather.service.ts:76-109 | past the end nothing is published and nothing changes; otherwise the record for `allTimes[index]` is published with the updated totals, becomes the current value, and the cursor moves on by exactly one |
| DataWeatherService.WeatherStream.AddToTotals | src/app/core/services/data-weather.service.ts:90-95 | the three closure totals become `Accumulate` of the old totals and this tick's temperature and energy |
| DataWeatherService.WeatherStream.Run | src/app/core/services/data-weather.service.ts:76-109 | `ticks` firings from position i publish min(ticks, N − i) records, the k-th for `allTimes[i + k]`, which continue exactly the replay of the ticks played so far |
| DataWeatherService.Stream | src/app/core/services/data-weather.service.ts:53-126 | a subscriber receives at most one record per tick, in strictly increasing time order, each for a time of a series and carrying that time's temperature and energy, at or after `now` unless every time is earlier, and at least one when there is data and a tick |
| DataWeatherService.StreamFromStart | src/app/core/services/data-weather.service.ts:21-109 | a fresh service run for `ticks` ticks publishes exactly the replay of the positions from the start onward |
| DataWeatherService.PublishedFields | src/app/core/services/data-weather.service.ts:99-105 | each replayed record carries its tick's time, the temperature found at that time and the energy found at that time |
| DataWeatherService.PlaybackTimes | src/app/core/services/data-weather.service.ts:117-126 | records for the positions from the start onward are in time order, come from the series, and are at or after `now` unless every time is earlier |
| DashboardWeather.TemperaturePointsInOrder | src/app/features/dashboard-weather/dashboard-weather.component.ts:74-78 | records received in time order draw a temperature series in time order, with at most one point per record |
| DashboardWeather.PowerPointsInOrder | src/app/features/dashboard-weather/dashboard-weather.component.ts:81-85 | records received in time order draw a power series in time order, with at most one point per record |
| DashboardWeather.TemperaturePoints | src/app/features/dashboard-weather/dashboard-weather.component.ts:74-78 | the temperature series has at most one point per record, each at the time and with the temperature of a received record, and every received record with a temperature has its point in the series |
| DashboardWeather.PowerPoints | src/app/features/dashboard-weather/dashboard-weather.component.ts:81-85 | the power series has at most one point per record, each at the time and with the energy of a received record, and every received record with an energy has its point in the series |
| DashboardWeather.DynamicIntervalSeconds | src/app/features/dashboard-weather/dashboard-weather.component.ts:174-178 | the interval is 0 iff there are fewer than 15 points, always a multiple of 30, and from 15 points on it is 30 s per full block of 15 points |
| DashboardWeather.IntervalNonDecreasing | src/app/features/dashboard-weather/dashboard-weather.component.ts:174-178 | more points never give a shorter label interval |
| DashboardWeather.LabelShown | src/app/features/dashboard-weather/dashboard-weather.component.ts:156-165 | with fewer than 15 points every label is shown; otherwise a label is shown iff the seconds since the start of the hour are a multiple of the interval |
| DashboardWeather.SecondsWithinHour | src/app/features/dashboard-weather/dashboard-weather.component.ts:162 | `minutes * 60 + seconds` of a time of day is its seconds since the start of the hour |
| DashboardWeather.SameLabelsEveryHour | src/app/features/dashboard-weather/dashboard-weather.component.ts:162-163 | the shown labels repeat every hour |
| DashboardWeather.EvenlySpacedLabels | src/app/features/dashboard-weather/dashboard-weather.component.ts:161-165 | when the interval divides an hour, a label is shown iff the time is a multiple of the interval |
| DashboardWeather.UnevenLabelsAtTheHour | src/app/features/dashboard-weather/dashboard-weather.component.ts:161-165 | at 105 points the interval is 210 s, and the labels at 00:59:30 and 01:00:00 are both shown, 30 s apart |
| DashboardWeather.DashboardWeatherComponent.constructor | src/app/features/dashboard-weather/dashboard-weather.component.ts:16-35 | before any emission nothing is displayed, both series are empty and `chartDataLength` is 0 |
| DashboardWeather.DashboardWeatherComponent.OnValue | src/app/features/dashboard-weather/dashboard-weather.component.ts:65-88 | null changes nothing; a record becomes the current value, mean and total, adds one point at the end of each series iff it carries that reading, and `chartDataLength` becomes the temperature series' length |
| App.Display | src/app/features/dashboard-weather/dashboard-weather.component.ts:65-88 | the dashboard fed by the stream draws exactly the series of the records the stream published, at most one per tick; every point shows the temperature or energy the service finds at its time; both series are in time order and `chartDataLength` counts the temperature points |
| TimeOfDay.TwoDigits | src/app/core/services/data-weather.service.ts:119 | a number below 100 is written as two digits whose value is the number |
| TimeOfDay.Format | src/app/core/services/data-weather.service.ts:119 | the "HH:MM:SS" string of a time has eight characters with colons at positions 2 and 5 |
| TimeOfDay.Parse | src/app/core/services/data-weather.service.ts:49 | a string read as a time of day is exactly the "HH:MM:SS" string of that time |
| TimeOfDay.ParseFormat | src/app/core/services/data-weather.service.ts:49 | every time of day reads back from its string |
| TimeOfDay.FormatOfParts | src/app/core/services/data-weather.service.ts:49 | a well-formed "HH:MM:SS" string is the string of the time its fields add up to |
| TimeOfDay.TimePartsUnique | src/app/core/services/data-weather.service.ts:49 | hours, minutes and seconds within range are recovered from the time they add up to |
| TimeOfDay.Less | src/app/core/services/data-weather.service.ts:121 | JavaScript string `<`: never true of equal strings, and a proper prefix is less than the longer string; `LessConcat` and `TwoDigitsOrder` give the order it induces on "HH:MM:SS" strings |
| TimeOfDay.LessConcat | src/app/core/services/data-weather.service.ts:121 | string comparison of equally long heads followed by tails compares the heads, then the tails |
| TimeOfDay.TwoDigitsOrder | src/app/core/services/data-weather.service.ts:121 | two-digit strings compare, and are equal, exactly as their numbers do |
| TimeOfDay.FormatOrder | src/app/core/services/data-weather.service.ts:49-121 | one "HH:MM:SS" string is less than another iff its time is earlier |
| TimeOfDay.FirstAtOrAfter | src/app/core/services/data-weather.service.ts:121 | `findIndex(t => t >= currentTimeStr)` on strings returns the first string not less than the clock's, and -1 iff every string is less |
| TimeOfDay.StringSearchAgrees | src/app/core/services/data-weather.service.ts:119-121 | the search on the timeline's strings finds the same position as the search on times of day |

## Left out

- HTTP and YAML: `http.get` and `yaml.load` (data-weather.service.ts:30-32) are I/O and library code. The parsed series are the constructor's parameters.
- The `Number(...)` coercion of the YAML values (lines 37, 42) is JavaScript semantics. Its outcome is a `Reading`: a finite number or NaN.
- Infinite readings: `Number(...)` can also yield ±Infinity (for a string such as "1e999"), which a `Reading` cannot hold. The model does not cover infinite samples or the infinite temperatures, energies and totals they would produce.
- rxjs `timer`, `BehaviorSubject` and `subscribe` are scheduling and push plumbing. Each timer firing is a `Tick` call. The subject's value is the field `currentValue`. Each emission is an `OnValue` call. `Run` and `Display` hand the records over in order.
- The clock: `new Date()` and `toTimeString()` (lines 118-119) are the environment. The time of day `now` is a parameter.
- `Date` parsing for the sort (lines 49-50) is modelled only for zero-padded "HH:MM:SS" strings, by `TimeOfDay.Parse`. An invalid or unpadded time string, whose `Date` is NaN, is not modelled.
- The label's fallback for an unparsable value (component line 153) is not modelled. Its `toLocaleTimeString` text (lines 157, 164) is locale code: the model only decides whether a label is shown.
- `toFixed` rounding (data-weather.service.ts:86-87, 96, 104) and IEEE-754 arithmetic are floating point. The model computes with exact reals.
- Aggregation.Celsius: does not model the rounding to 2 decimals. The totals therefore add exact values, not rounded ones.
- Aggregation.MwToKwh: does not model the rounding to 6 decimals. So a tiny power that JavaScript rounds to 0 still counts as truthy energy here.
- The constructor folds the asynchronous `load` callback into object construction: the service is modelled once its data has arrived.
- The chart wrappers `[{ name, series }]`, colour schemes, the sticky header, `IntersectionObserver`, DOM queries and `setTimeout` (component lines 27-55, 95-144) are presentation only. A series is modelled as its list of points.
- DataWeatherService.EnergyNonDecreasing: holds only for non-negative power samples. The code does not check this, as `NegativePowerLowersEnergy` shows.
- The service's series and timeline are `const` fields. They are assigned once, when the data arrives, and only read afterwards.
