# Bus arrivals: a verified model

This project models the logic of a bus-arrival app for Transport for NSW stops:

- **Departure-monitor normalisation.** A decoded response becomes at most five arrivals. Each arrival has a route, a destination and a delay in whole minutes.
- **Stop-name lookup.** A stop-finder response yields a stop name, or none.
- **Recent-stops store.** The store keeps up to ten remembered stops, each id once and the newest first, under one preferences entry.
- **Presentation rules.** These cover:
  - the three adapters: one for arrival rows, one for the route chips, and the carousel of remembered stops in pages of three;
  - the main screen's wiring of chips, filter, carousel indicators and search.

## Modules

- `Wrappers` (`wrappers.dfy`): `Option` and `Result`.
- `Seqs` (`seqs.dfy`): Kotlin's `take`, `filter`, `distinct` and `chunked`, plus two helpers the properties are stated with: reversing a list and flattening a list of lists.
- `Text` (`text.dfy`): decimal digits, `trim`, and `substringBefore`/`substringAfter`.
- `Timestamps` (`timestamps.dfy`) covers:
  - date-times with a UTC offset, read the way `OffsetDateTime.parse(…, ISO_DATE_TIME)` reads the feed's timestamps (the profile of section 5.6 of RFC 3339);
  - their instant in nanoseconds since the Unix epoch;
  - `Duration.between(…).toMinutes()`.
- `TimestampExamples` (also in `timestamps.dfy`): worked examples.
- `BusModel` (`bus_model.dfy`): the payload and arrival datatypes, `BusStopGroup`, and `getFormattedTime`.
- `BusService` (`bus_service.dfy`): the key check, the arrival pipeline of `getBusArrivals`, and `getStopInfo`.
- `RecentStopsStore` (`recent_stops.dfy`): the class `RecentStopsManager`.
- `RecentStopsPages` (`recent_stops_view.dfy`): the class `RecentStopsAdapter` and the page rules of its `bind`.
- `ArrivalRows` (`arrivals_view.dfy`): the class `BusArrivalAdapter` and what a row shows.
- `RouteChips` (`bus_numbers_view.dfy`): the class `BusNumberAdapter`.
- `MainScreen` (`main_screen.dfy`): the class `MainActivity`.

## Design

The HTTP exchanges are inputs of type `Http<T>`: either a transport failure with its message, or a status code with the decoded body. `None` stands for a body that does not decode.

The `mapNotNull` lambda has three outcomes per event: dropped, an arrival, or an exception. `mapNotNull` is eager, so one exception anywhere in the payload fails the batch, even after the fifth survivor. It then becomes `"Parsing error: …"`.

Java's `Duration` keeps a non-negative nanosecond part, so its seconds are the nanoseconds rounded down. `toMinutes` then truncates toward zero. Both steps are written out:

- half a minute late counts as on time;
- 59.5 seconds early counts as one minute early.

Some state of the screen and adapters is updated in place. In the model:

- the adapters are classes whose methods replace their fields;
- the store's preferences entry is a field with three cases: missing, a decoded list, or text that does not decode;
- `setupCarouselIndicator` and `updateIndicator` keep their loops.

A few consequences of the code, as written, are stated and proved:

- **Re-adding replaces the old entry.** A re-add replaces the old name, even with no name. A click on a remembered stop therefore first stores it without a name, and only the stop-name lookup restores it. If that lookup fails, the name is lost (`MainScreen.MainActivity.LoadBusArrivals`).
- **Only the last add counts.** Adding the same id twice leaves the list as if only the second add had happened (`MainScreen.ReAddSameId`).
- **A recycled separator can stay visible.** The carousel's `bind` shows the second separator but never hides it. A one-stop page bound onto a recycled view keeps a visible separator (`RecentStopsPages.RecycledSeparator`).
- **Every chip has arrivals.** Every chip on the screen other than `All` names a route with arrivals. So a chip click never reaches the no-data branch of `filterByBusNumber` (`MainScreen.MainActivity.OnChipClicked`).

## Model

Source paths are relative to the repository root.

| member | source | states |
|---|---|---|
| BusService.ConfiguredKey | app/src/main/java/com/heuge/busapp/data/api/NSWBusService.kt:26-30 | the service is built exactly when the key is not `default_key`, and it keeps that key; otherwise it fails with the configuration message |
| BusService.AuthorizationHeader | app/src/main/java/com/heuge/busapp/data/api/NSWBusService.kt:41 | the header value is `apikey ` followed by the key |
| BusService.DestinationName | app/src/main/java/com/heuge/busapp/data/api/NSWBusService.kt:63 | the destination's name when both the destination and its name are present, else `Unknown` |
| BusService.ConvertEvent | app/src/main/java/com/heuge/busapp/data/api/NSWBusService.kt:60-81 | an event is dropped iff it lacks a transportation, its number or its planned time; a kept arrival carries that number, the planned time, and the estimate or else the planned time |
| BusService.EventOutcomes | app/src/main/java/com/heuge/busapp/data/api/NSWBusService.kt:61-70 | an event is dropped iff it lacks a transportation, its number, or its planned time; a kept event throws iff its planned time or its estimate (defaulting to the plan) does not parse |
| BusService.KeptArrival | app/src/main/java/com/heuge/busapp/data/api/NSWBusService.kt:62-80 | a built arrival carries the route number, the destination, the planned time and the estimate (or else the plan), with the minute delay between them; without an estimate both times are equal and the delay is 0 |
| BusService.NoDelayWithoutEstimate | app/src/main/java/com/heuge/busapp/data/api/NSWBusService.kt:65-72 | a time compared with itself gives a delay of 0 |
| BusService.Collect | app/src/main/java/com/heuge/busapp/data/api/NSWBusService.kt:60-81 | the collection fails iff some outcome is an exception; otherwise it holds only kept arrivals and is no longer than the outcomes |
| BusService.MapEvents | app/src/main/java/com/heuge/busapp/data/api/NSWBusService.kt:60-81 | the eager `mapNotNull` fails iff some event throws, wherever it is; every arrival it yields was built from an event of the payload |
| BusService.CollectConcat | app/src/main/java/com/heuge/busapp/data/api/NSWBusService.kt:60-81 | collecting a concatenation is collecting each part and concatenating, so order is kept and nothing is skipped |
| BusService.DroppedIsSkipped | app/src/main/java/com/heuge/busapp/data/api/NSWBusService.kt:61-64 | a dropped event anywhere changes nothing: the events after it are processed as though it were absent |
| BusService.CollectSkipsDropped | app/src/main/java/com/heuge/busapp/data/api/NSWBusService.kt:61-64 | a dropped outcome between two runs of outcomes contributes nothing |
| BusService.OutcomesConcat | app/src/main/java/com/heuge/busapp/data/api/NSWBusService.kt:60-61 | the lambda is applied to each event independently, in payload order |
| BusService.AllKept | app/src/main/java/com/heuge/busapp/data/api/NSWBusService.kt:60-82 | outcomes that are all arrivals collect to exactly those arrivals, in order |
| BusService.AllEventsKept | app/src/main/java/com/heuge/busapp/data/api/NSWBusService.kt:60-82 | events that all build arrivals yield one arrival per event, in payload order |
| BusService.BusArrivals | app/src/main/java/com/heuge/busapp/data/api/NSWBusService.kt:45-94 | at most 5 arrivals are delivered; a transport failure gives `Network error: ` and its message (`null` when absent); a non-2xx status gives `API Error: ` and the code; a body that does not decode gives the parsing error |
| BusService.DecodedPayload | app/src/main/java/com/heuge/busapp/data/api/NSWBusService.kt:58-88 | no `stopEvents` delivers the empty list; an exception in any event is exactly the parsing error; otherwise the first min(5, k) of the k survivors are delivered |
| BusService.DeliveredFromPayload | app/src/main/java/com/heuge/busapp/data/api/NSWBusService.kt:53-83 | a delivery comes only from a decoded 2xx response, and each delivered arrival was built from one of its events |
| BusService.LocationName | app/src/main/java/com/heuge/busapp/data/api/NSWBusService.kt:130 | the elvis chain `name ?: disassembledName ?: desc` |
| BusService.StopName | app/src/main/java/com/heuge/busapp/data/api/NSWBusService.kt:113-147 | a name is reported only from a decoded 2xx response, and it is the first location's name chain |
| BusService.StopNameMissing | app/src/main/java/com/heuge/busapp/data/api/NSWBusService.kt:113-147 | the callback gets `null` iff the exchange failed, the status is not 2xx, the body did not decode, there is no first location, or that location has no name of the three; no error is ever reported |
| Timestamps.TruncMinutes | app/src/main/java/com/heuge/busapp/data/api/NSWBusService.kt:72 | whole minutes truncated toward zero: a non-negative count of seconds is bracketed from below, a negative one from above |
| Timestamps.DurationSeconds | app/src/main/java/com/heuge/busapp/data/api/NSWBusService.kt:72 | the whole seconds of a duration are its nanoseconds rounded down |
| Timestamps.DelayMinutes | app/src/main/java/com/heuge/busapp/data/api/NSWBusService.kt:72 | the delay in whole minutes brackets the nanosecond gap between the two instants: from below when the estimate is not early, and, when it is early, from both sides within 60 seconds, the one second that rounding down the seconds adds included |
| Timestamps.DelaySign | app/src/main/java/com/heuge/busapp/data/api/NSWBusService.kt:67-72 | the delay is positive iff the estimate is at least a minute after the plan, and negative iff it is more than 59 seconds before |
| Timestamps.Parse | app/src/main/java/com/heuge/busapp/data/api/NSWBusService.kt:67-70 | every parsed date-time is a real calendar date and time, with an offset of whole minutes within ±18 hours |
| Timestamps.ParseFormat | app/src/main/java/com/heuge/busapp/data/api/NSWBusService.kt:67-70 | the canonical text of every valid date-time parses back to it |
| TimestampExamples.SevenMinutesLate | app/src/main/java/com/heuge/busapp/data/api/NSWBusService.kt:67-72 | 10:00 to 10:07, both at +11:00, is a delay of 7 |
| TimestampExamples.HalfMinuteEarlyIsOnTime | app/src/main/java/com/heuge/busapp/data/api/NSWBusService.kt:72 | 30 seconds early truncates to a delay of 0 |
| Text.IntToDecimal | app/src/main/java/com/heuge/busapp/data/api/NSWBusService.kt:90 | the decimal text of the status code: it reads back as the value, has a leading `-` exactly for negative values, and has no leading zero except for 0 itself |
| Text.Trim | app/src/main/java/com/heuge/busapp/ui/main/MainActivity.kt:347 | the result is the input between its leading and trailing whitespace, starting and ending with non-whitespace; it is empty iff the input is all whitespace |
| Text.NatToDecimal | app/src/main/java/com/heuge/busapp/data/model/BusArrival.kt:57 | the decimal text of a number is non-empty and all digits, with a leading zero only for 0 |
| Text.NatToDecimalValue | app/src/main/java/com/heuge/busapp/data/model/BusArrival.kt:57 | the decimal text reads back as the number |
| Text.SubstringBefore | app/src/main/java/com/heuge/busapp/data/model/BusArrival.kt:63 | the text before the first occurrence of the delimiter, or the whole text when it does not occur |
| Text.SubstringAfter | app/src/main/java/com/heuge/busapp/data/model/BusArrival.kt:63 | the text after the first occurrence of the delimiter, or the whole text when it does not occur |
| BusModel.BusStopGroup.HasSecondStop | app/src/main/java/com/heuge/busapp/data/model/BusArrival.kt:93 | holds exactly when the page has a stop at index 1 |
| BusModel.BusStopGroup.HasThirdStop | app/src/main/java/com/heuge/busapp/data/model/BusArrival.kt:94 | holds exactly when the page has a stop at index 2, and then it also has a second stop |
| BusModel.InstantText | app/src/main/java/com/heuge/busapp/data/model/BusArrival.kt:43-47 | a time containing `+` or `Z` is parsed as given; any other is read as UTC by appending `Z` |
| BusModel.TimeLabel | app/src/main/java/com/heuge/busapp/data/model/BusArrival.kt:54-59 | `Now` for 0 minutes or fewer, `1 min` for one, `<N> mins` for 2 to 59, and the clock time from 60 on |
| BusModel.MinutesLabelReadsBack | app/src/main/java/com/heuge/busapp/data/model/BusArrival.kt:57 | the minutes label is one or two digits that read as the minutes, then ` mins` |
| BusModel.FallbackTime | app/src/main/java/com/heuge/busapp/data/model/BusArrival.kt:62-63 | the fallback exists iff at least five characters follow the first `T` in the text before the first `+`, and it is those five |
| BusModel.FormattedTime | app/src/main/java/com/heuge/busapp/data/model/BusArrival.kt:40-66 | the label when the time reads as an instant and the label can be formatted; otherwise the fallback |
| BusModel.FallbackOfTimestamp | app/src/main/java/com/heuge/busapp/data/model/BusArrival.kt:63 | on the canonical text of any valid feed timestamp, the fallback is the written local `HH:mm` |
| RecentStopsStore.Listed | app/src/main/java/com/heuge/busapp/data/local/RecentStopsManager.kt:33-40 | the stored list, or empty when the key is absent or its text does not decode |
| RecentStopsStore.RemoveId | app/src/main/java/com/heuge/busapp/data/local/RecentStopsManager.kt:20 | exactly the entries with another id remain |
| RecentStopsStore.RemoveIdConcat | app/src/main/java/com/heuge/busapp/data/local/RecentStopsManager.kt:48 | removal keeps the relative order of what remains |
| RecentStopsStore.RemoveAbsentId | app/src/main/java/com/heuge/busapp/data/local/RecentStopsManager.kt:46-52 | removing an id that no entry has leaves the list unchanged |
| RecentStopsStore.RemoveIdDistinct | app/src/main/java/com/heuge/busapp/data/local/RecentStopsManager.kt:48 | removal keeps distinct ids distinct |
| RecentStopsStore.Added | app/src/main/java/com/heuge/busapp/data/local/RecentStopsManager.kt:16-26 | the added list has 1 to 10 entries, the new stop first; every other entry was listed before and has another id |
| RecentStopsStore.AddedShape | app/src/main/java/com/heuge/busapp/data/local/RecentStopsManager.kt:16-26 | after an add, the new entry is first exactly as given (even with no name); the list has 1 to 10 entries; the rest are the other ids in their old order, cut to nine |
| RecentStopsStore.AddedDistinct | app/src/main/java/com/heuge/busapp/data/local/RecentStopsManager.kt:20 | an add keeps ids pairwise distinct |
| RecentStopsStore.AddedKeeps | app/src/main/java/com/heuge/busapp/data/local/RecentStopsManager.kt:20-26 | an entry survives an add iff it is the new one, or it is among the first nine of the others |
| RecentStopsStore.AddedFresh | app/src/main/java/com/heuge/busapp/data/local/RecentStopsManager.kt:20-23 | adding a new id puts it in front of the unchanged list, cut to ten |
| RecentStopsStore.AddAllDistinct | app/src/main/java/com/heuge/busapp/data/local/RecentStopsManager.kt:16-26 | adding distinct stops in turn leaves the ten newest, newest first |
| Seqs.TakeConsTake | app/src/main/java/com/heuge/busapp/data/local/RecentStopsManager.kt:23-26 | cutting, then putting one entry in front and cutting again, is the same as a single cut |
| RecentStopsStore.RecentStopsManager.constructor | app/src/main/java/com/heuge/busapp/data/local/RecentStopsManager.kt:12 | the store opens over the persisted entry as it is |
| RecentStopsStore.RecentStopsManager.GetRecentStops | app/src/main/java/com/heuge/busapp/data/local/RecentStopsManager.kt:33-40 | never fails; a missing or unreadable entry lists as empty |
| RecentStopsStore.RecentStopsManager.AddRecentStop | app/src/main/java/com/heuge/busapp/data/local/RecentStopsManager.kt:16-31 | stores the added list over whatever was listed (an unreadable entry counts as empty and is overwritten); the new stop is first and there are at most 10; distinct ids stay distinct |
| RecentStopsStore.RecentStopsManager.ClearRecentStops | app/src/main/java/com/heuge/busapp/data/local/RecentStopsManager.kt:42-44 | the entry is removed, and the listing is then empty |
| RecentStopsStore.RecentStopsManager.RemoveStop | app/src/main/java/com/heuge/busapp/data/local/RecentStopsManager.kt:46-52 | stores the list without that id, keeping the others in order; an absent id leaves the listing unchanged; distinct ids stay distinct |
| RecentStopsPages.Pages | app/src/main/java/com/heuge/busapp/ui/adapter/RecentStopsAdapter.kt:22 | page k holds chunk k of the stops in threes |
| RecentStopsPages.PagesPartition | app/src/main/java/com/heuge/busapp/ui/adapter/RecentStopsAdapter.kt:22 | the pages concatenate back to the stops in order; each has 1 to 3 stops and all but the last exactly 3; there are (n + 2) / 3 pages, and none iff there are no stops |
| RecentStopsPages.DisplayName | app/src/main/java/com/heuge/busapp/ui/adapter/RecentStopsAdapter.kt:68 | the stop's name, or `Stop <id>` when it has none |
| RecentStopsPages.BindPage | app/src/main/java/com/heuge/busapp/ui/adapter/RecentStopsAdapter.kt:64-102 | the first slot shows the first stop; the second and third slots are shown iff `hasSecondStop` and `hasThirdStop` hold, and then show stops 1 and 2; the separator is visible iff there is a second stop or the recycled view had it visible |
| RecentStopsPages.BoundSlots | app/src/main/java/com/heuge/busapp/ui/adapter/RecentStopsAdapter.kt:64-102 | on a page of 1 to 3 stops, `hasSecondStop` holds iff there are at least 2 and the second slot is shown exactly then, likewise the third with 3; slot k shows stop k's id and reports stop k when clicked |
| RecentStopsPages.RecycledSeparator | app/src/main/java/com/heuge/busapp/ui/adapter/RecentStopsAdapter.kt:75-87 | a one-stop page bound onto a view whose separator was visible hides the second slot but leaves the separator visible |
| RecentStopsPages.RecentStopsAdapter.constructor | app/src/main/java/com/heuge/busapp/ui/adapter/RecentStopsAdapter.kt:19 | there are no pages at first |
| RecentStopsPages.RecentStopsAdapter.ItemCount | app/src/main/java/com/heuge/busapp/ui/adapter/RecentStopsAdapter.kt:38 | one carousel item per page of stops |
| RecentStopsPages.RecentStopsAdapter.UpdateStops | app/src/main/java/com/heuge/busapp/ui/adapter/RecentStopsAdapter.kt:21-24 | the pages of the stops replace the old ones; the item count is (n + 2) / 3 and the pages read back as the stops |
| RecentStopsPages.RecentStopsAdapter.Bind | app/src/main/java/com/heuge/busapp/ui/adapter/RecentStopsAdapter.kt:32-35 | the page at the position is bound, and its first slot reports its first stop |
| ArrivalRows.Classify | app/src/main/java/com/heuge/busapp/ui/adapter/BusArrivalAdapter.kt:46-63 | exactly one class applies: late iff delay > 0, early iff < 0, on time iff 0 |
| ArrivalRows.ClassOfEvent | app/src/main/java/com/heuge/busapp/ui/adapter/BusArrivalAdapter.kt:46-63 | for an arrival built from the feed, the class follows from the gap between its two instants |
| ArrivalRows.RowAt | app/src/main/java/com/heuge/busapp/ui/adapter/BusArrivalAdapter.kt:31-67 | the row shows the route, `To ` + destination, the formatted time, and the delay class; its separator is hidden iff it is the last row |
| ArrivalRows.OneHiddenSeparator | app/src/main/java/com/heuge/busapp/ui/adapter/BusArrivalAdapter.kt:66 | in a non-empty list only the last row hides its separator |
| ArrivalRows.BusArrivalAdapter.constructor | app/src/main/java/com/heuge/busapp/ui/main/MainActivity.kt:225 | the adapter starts with the given list |
| ArrivalRows.BusArrivalAdapter.ItemCount | app/src/main/java/com/heuge/busapp/ui/adapter/BusArrivalAdapter.kt:69 | one row per arrival in the list |
| ArrivalRows.BusArrivalAdapter.UpdateArrivals | app/src/main/java/com/heuge/busapp/ui/adapter/BusArrivalAdapter.kt:69-74 | the new list replaces the old one whole, and the item count is its length |
| ArrivalRows.BusArrivalAdapter.Bind | app/src/main/java/com/heuge/busapp/ui/adapter/BusArrivalAdapter.kt:31-67 | the row at the position; the separator is hidden iff it is the last item |
| RouteChips.BusNumberAdapter.constructor | app/src/main/java/com/heuge/busapp/ui/adapter/BusNumberAdapter.kt:21 | the first chip is selected at first |
| RouteChips.BusNumberAdapter.ItemCount | app/src/main/java/com/heuge/busapp/ui/adapter/BusNumberAdapter.kt:46 | one chip per entry of the chip list |
| RouteChips.BusNumberAdapter.Rendered | app/src/main/java/com/heuge/busapp/ui/adapter/BusNumberAdapter.kt:42-44 | a chip is rendered selected iff its position is the selected position |
| RouteChips.BusNumberAdapter.UpdateData | app/src/main/java/com/heuge/busapp/ui/adapter/BusNumberAdapter.kt:48-52 | the list is replaced, the selection returns to 0, and the item count is the new length |
| RouteChips.BusNumberAdapter.Click | app/src/main/java/com/heuge/busapp/ui/adapter/BusNumberAdapter.kt:31-37 | the clicked position becomes the selection, its chip's route is reported, the list is kept, and only that chip renders selected |
| RouteChips.AtMostOneSelected | app/src/main/java/com/heuge/busapp/ui/adapter/BusNumberAdapter.kt:43 | no two chips render selected |
| RouteChips.FirstSelectedAfterUpdate | app/src/main/java/com/heuge/busapp/ui/adapter/BusNumberAdapter.kt:48-52 | after an update with chips, exactly the first one renders selected |
| MainScreen.Routes | app/src/main/java/com/heuge/busapp/ui/main/MainActivity.kt:490 | the route names of the arrivals, one per arrival, in order |
| MainScreen.ChipList | app/src/main/java/com/heuge/busapp/ui/main/MainActivity.kt:490 | the chips start with `All`, and the others are exactly the routes of the arrivals |
| MainScreen.ChipListShape | app/src/main/java/com/heuge/busapp/ui/main/MainActivity.kt:490 | the chip list is `All`, then every route of the arrivals exactly once and nothing else, in first-occurrence order |
| MainScreen.RouteFilter | app/src/main/java/com/heuge/busapp/ui/main/MainActivity.kt:516 | exactly the arrivals of that route are kept |
| MainScreen.RouteFilterConcat | app/src/main/java/com/heuge/busapp/ui/main/MainActivity.kt:516 | filtering keeps the arrivals' order |
| MainScreen.RouteFilterOfRoute | app/src/main/java/com/heuge/busapp/ui/main/MainActivity.kt:516-518 | a route taken from the arrivals has at least one match |
| MainScreen.IndicatorsFor | app/src/main/java/com/heuge/busapp/ui/main/MainActivity.kt:272-299 | no indicators for one page or fewer; otherwise one per page, with only the first active |
| MainScreen.ReAddSameId | app/src/main/java/com/heuge/busapp/data/local/RecentStopsManager.kt:16-31 | adding an id again leaves the list as if only the second add had happened |
| MainScreen.MainActivity.constructor | app/src/main/java/com/heuge/busapp/ui/main/MainActivity.kt:67-101 | the screen starts with no arrivals and no chips; the carousel shows the persisted stops, with (n + 2) / 3 pages worth of indicators |
| MainScreen.MainActivity.SetupCarouselIndicator | app/src/main/java/com/heuge/busapp/ui/main/MainActivity.kt:272-299 | the indicators are rebuilt: hidden and none for a count of 1 or less, else `itemCount` with only index 0 active; nothing else changes |
| MainScreen.MainActivity.UpdateIndicator | app/src/main/java/com/heuge/busapp/ui/main/MainActivity.kt:301-307 | exactly indicator p is active, the count is kept, and nothing else changes |
| MainScreen.MainActivity.OnPageSettled | app/src/main/java/com/heuge/busapp/ui/main/MainActivity.kt:241-251 | a settled page within range becomes the active indicator; otherwise the indicators are left as they were |
| MainScreen.MainActivity.LoadRecentStops | app/src/main/java/com/heuge/busapp/ui/main/MainActivity.kt:315-330 | the pages follow the stored list, the indicator count follows the page count, the indicators are visible iff there are several pages, the section is visible iff there are stops, and nothing else changes |
| MainScreen.MainActivity.ShowResults | app/src/main/java/com/heuge/busapp/ui/main/MainActivity.kt:486-497 | the arrivals are kept and shown, the chips are rebuilt with the first selected, and the results panel is shown |
| MainScreen.MainActivity.FilterByBusNumber | app/src/main/java/com/heuge/busapp/ui/main/MainActivity.kt:512-523 | `All` shows every kept arrival; a route with matches shows exactly them, in order; one without matches shows no-data and leaves the list; the kept arrivals never change |
| MainScreen.MainActivity.OnChipClicked | app/src/main/java/com/heuge/busapp/ui/main/MainActivity.kt:189-191 | the clicked chip becomes the selection and its filter is applied without ever reaching the no-data state |
| MainScreen.MainActivity.OnArrivals | app/src/main/java/com/heuge/busapp/ui/main/MainActivity.kt:402-429 | a non-empty list is kept, shown and made into chips with `All` selected, and the stop is re-added and the carousel reloaded only when a name is known; an empty list shows no-data and a failure its message, and both leave the arrivals, chips, adapters, store and carousel as they were |
| MainScreen.MainActivity.SearchBusArrivals | app/src/main/java/com/heuge/busapp/ui/main/MainActivity.kt:377-400 | the stop ends up in front of the store under the looked-up name, stamped with the time of its last add; the arrivals area is left as the answer for the arrivals demands (results with rebuilt chips, no-data, or the error message); the carousel follows the store; the search field is kept |
| MainScreen.MainActivity.LoadBusArrivals | app/src/main/java/com/heuge/busapp/ui/main/MainActivity.kt:332-343 | fills the search field with the id and searches: the store, the arrivals area and the carousel end up as after the search alone, the click's nameless entry being replaced by the search's |
| MainScreen.MainActivity.EnterText | app/src/main/java/com/heuge/busapp/ui/main/MainActivity.kt:347 | the search field holds the typed text and nothing else changes |
| MainScreen.MainActivity.SubmitSearch | app/src/main/java/com/heuge/busapp/ui/main/MainActivity.kt:347-352 | the search field's text is trimmed; when nothing is left, `Please enter a stop ID` is shown and nothing else changes; otherwise the trimmed id is searched, with every effect of `SearchBusArrivals` |

## Left out

- JSON encoding and decoding: kotlinx.serialization is a foreign library. The model uses decoded values, with `None` for a body that does not decode and `Unreadable` for a stored entry that does not decode.
- Networking and threading: OkHttp, requests, URLs, `enqueue`, `lifecycleScope` and `runOnUiThread` are left out. The two answers a search waits for are parameters.
  - The model takes the callbacks in the order the UI thread runs them: the stop-name add first, then the arrivals callback.
- The wall clock is a parameter, passed as `now`, for each `addRecentStop` and for `BusStop.lastUsed`.
- BusModel.FormattedTime: `readInstant` stands for several things the model does not contain:
  - `Instant.parse`;
  - the `Australia/Sydney` zone rules;
  - `ZonedDateTime.now`;
  - the `HH:min` clock pattern, whose success or failure is part of that parameter.
- Android views: fade animations, progress animation, keyboard hiding, window insets, RecyclerView snapping and inflation, and touch feedback.
  - `OnPageSettled` takes the snapped position, or 0 when no view snaps, as given.
- The swipe-to-refresh flow (`refreshCurrentStopData`, `refreshBusArrivals`).
- `delayStatus`: it is never defined in the code.
- `BusArrival` gains a `delayMinutes` field. The service passes that field and the arrival adapter reads it, but the data class as shown lacks it.
- BusService.BusArrivals: the exception message after `Parsing error: ` is not modelled. A parsing failure is the bare prefix.
- Timestamps.Parse: some forms `ISO_DATE_TIME` accepts on `OffsetDateTime` are rejected:
  - a fraction point with no digits;
  - offset seconds;
  - a bracketed zone id;
  - years beyond four digits or negative;
  - a lowercase `z` for UTC.

  The feed's timestamps do not use them.
- Timestamps.Parse: leap seconds and the limits of Java's year range are not modelled.
- Text.Trim: characters are Unicode scalar values, not UTF-16 code units. Whitespace is the JVM's `Char.isWhitespace` set as listed in `Text.IsWhitespace`.
- `clearRecentStops` and `removeStop` are not called by the screen. They are modelled on the store alone.
- `println` debug output.
