# CU POP bus timetable: next-departure engine

This is a Dafny model of the scheduling logic in the CU POP bus timetable web app.
A parsed timetable document maps a day type ("weekday" or "Saturday") and a line
name ("Line 1" … "Line 4") to an hour table. An hour table maps an hour key to the
list of minute strings at which a bus leaves in that hour. Three views read that table:

- **Card.** A bus-line card shows the single next bus and the minutes until it
  leaves (`components/bus-line-card.tsx`).
- **Route dialog.** This dialog lists the next three buses (`components/route-modal.tsx`).
- **All-times dialog.** This dialog lists every departure of a line, one section per
  hour (`components/all-times-modal.tsx`).
- **Helpers.** `lib/date-utils.ts` supplies `formatAMPM`, `getMinutesDifference` and
  `getCurrentDay`.

The files are:

- `wrappers.dfy`: `Option`.
- `strings.dfy`: the subset of JavaScript `trim`, `Number.parseInt` and `toString`
  that the timetable uses.
- `sorting.dfy`: the numeric sort `sort((a, b) => a - b)` and the default string
  sort `sort()`, each on the set of keys it is given.
- `date_utils.dfy`: the date helpers and the day-type choice.
- `timetable.dfy`: the hour table and the two reference sequences the engines
  are proved against.
  - `Normalize` turns a well-formed table into a schedule, a map from hour to
    minute numbers.
  - `UpcomingOf` is the current hour's later minutes in list order, followed by
    the minutes of every later hour, hours ascending.
- `bus_line_card.dfy`: the card's scan, as a method with two loops that
  `break`, proved to return the first element of `UpcomingOf`.
- `route_modal.dfy`: the `addBusTime` accumulation, as methods with loops and
  the break at three, proved to return the first three elements of
  `UpcomingOf` as bus times.
- `all_times_modal.dfy`: the section order, headings, cells and the view the
  dialog shows.

Time of day is a `Clock(hour, minute, second, millis)`. A bus is built with
`setHours`, `setMinutes` and `setSeconds(0)`, which keep the milliseconds of
`now`. So a departure instant is `(hour * 60 + minute) * 60000 + now.millis`.
Its `minutesUntil` is therefore the minute gap, less one exactly when the
seconds of `now` are non-zero. The milliseconds of `now` never change it.

## Model

| member | source | states |
|---|---|---|
| Timetable.Lookup | components/bus-line-card.tsx:35-36 | `data[dayType][lineName]` yields a table exactly when both the day type and the line are present |
| Timetable.HourOf | components/bus-line-card.tsx:65-67 | a canonical hour key parses to an hour below 24 whose `toString` is the key again |
| Timetable.MinuteOf | components/bus-line-card.tsx:51 | a minute token, trimmed, is a digit string, and `parseInt` reads it as the value its digits spell, below 60 |
| Timetable.RadixTokensAreNotMinuteTokens | components/route-modal.tsx:82 | "0x1A" and "-0x5", which `parseInt` reads as 26 and -5, are not minute tokens; " 05 " is one and reads as 5 |
| Timetable.PaddedKeyIsNotAnHourKey | components/bus-line-card.tsx:71 | "9" is a canonical hour key and "09" is not, because `hour.toString()` would not find it |
| Timetable.MinutesOf | components/route-modal.tsx:81-82 | the parsed minutes of a list, one per token, in list order, each within 0..59 |
| Timetable.Normalize | components/bus-line-card.tsx:65-72 | the schedule has exactly the parsed hours of the table, each carrying the parsed minutes of its key |
| Timetable.DepartureMillis | components/route-modal.tsx:65-68 | the whole minutes of the built instant are the departure's minute of the day, and only the milliseconds of `now` are left below them |
| Timetable.ToBusTime | components/route-modal.tsx:65-75 | a bus time is strictly after `now` exactly when its minute of the day is; its `minutesUntil`, `getMinutesDifference(now, time)`, is then the minute gap, less one when the seconds of `now` are non-zero, and non-negative |
| Timetable.BusTimesOf | components/route-modal.tsx:72-75 | one bus time per departure, in the same order |
| Timetable.LaterHours | components/bus-line-card.tsx:65-68 | the later hours of the table, strictly ascending numerically |
| Timetable.LaterHoursOf | components/route-modal.tsx:90-93 | exactly the schedule's hours after the current one, strictly ascending |
| Timetable.LaterHoursNormal | components/bus-line-card.tsx:65-68 | the hours read from the table's keys are the later hours of its schedule |
| Timetable.LaterHourSet | components/bus-line-card.tsx:65-67 | the set of parsed keys above the current hour is the set of schedule hours above it |
| Timetable.HourKeyOfHour | components/route-modal.tsx:96 | every schedule hour is listed in the table under its `toString` |
| Timetable.SlotsAfter | components/route-modal.tsx:81-85 | the departures of an hour whose minute is greater than a bound, in list order |
| Timetable.NextSplit | components/bus-line-card.tsx:48-81 | the next departure is the first of the current hour if there is one, else the first of the later hours |
| Timetable.SlotsAfterMembers | components/route-modal.tsx:81-85 | a departure is kept from an hour exactly when it is listed and its minute exceeds the bound |
| Timetable.LaterSlotsMembers | components/route-modal.tsx:95-99 | a departure is among those of the given hours exactly when its hour is one of them and it is listed |
| Timetable.UpcomingMembers | components/route-modal.tsx:79-101 | a departure is upcoming exactly when it is listed and its minute of the day is after now: no earlier hour and no wrap to tomorrow |
| Timetable.SlotsAfterFirst | components/bus-line-card.tsx:50-58 | the first kept departure of an hour is the first listed minute above the bound, not the smallest |
| Timetable.SlotsAfterEmpty | components/bus-line-card.tsx:49-64 | no departure is kept from an hour exactly when all its minutes are at most the bound |
| Timetable.LaterSlotsFirst | components/bus-line-card.tsx:70-79 | the first later departure is index 0 of the first later hour with entries |
| Timetable.LaterSlotsEmpty | components/bus-line-card.tsx:70-81 | there is no later departure exactly when every later hour is empty |
| Timetable.AscendingNormal | components/route-modal.tsx:80-101 | minutes ascending in every hour key means minutes ascending in every schedule hour |
| Timetable.SlotsAfterIncreasing | components/route-modal.tsx:81-85 | ascending minutes give strictly increasing kept departures |
| Timetable.LaterSlotsIncreasing | components/route-modal.tsx:95-99 | ascending hours with ascending minutes give strictly increasing later departures |
| Timetable.UpcomingOfIncreasing | components/route-modal.tsx:80-101 | with ascending minutes the upcoming departures are strictly increasing |
| Timetable.UpcomingIncreasing | components/route-modal.tsx:80-101 | the same, stated on the hour table |
| BusLineCard.NextBusTime | components/bus-line-card.tsx:41-86 | the scan returns the card's bus time: the first upcoming departure, with its `minutesUntil` |
| BusLineCard.ScanCurrentHour | components/bus-line-card.tsx:48-61 | the current-hour loop with `break` finds the first listed minute above the current minute |
| BusLineCard.ScanLaterHours | components/bus-line-card.tsx:63-81 | the later-hour loop with `break` finds index 0 of the smallest later hour with entries |
| BusLineCard.FetchNextBusTime | components/bus-line-card.tsx:35-39 | nothing is computed when the day type or line is missing; otherwise the card's bus time |
| BusLineCard.CardFromCurrentHour | components/bus-line-card.tsx:49-59 | if minute `i` is the first of the current hour above now, the card shows it at the current hour |
| BusLineCard.CardFromLaterHour | components/bus-line-card.tsx:64-80 | if the current hour has nothing left and `h` is the first later hour with entries, the card shows index 0 of `h`, skipping empty hours |
| BusLineCard.CardNoMoreBuses | components/bus-line-card.tsx:45-83 | "no more buses" exactly when no listed departure is after now |
| BusLineCard.CardAfterNow | components/bus-line-card.tsx:53-85 | the card's bus is listed and strictly after now; `minutesUntil` is the minute gap less one when seconds are non-zero, and is non-negative |
| BusLineCard.ListOrderNotSmallest | components/bus-line-card.tsx:50-58 | with 45 listed before 15 at 9:10, the card shows 9:45 although 9:15 is still to come |
| BusLineCard.NextAtHalfPast | components/bus-line-card.tsx:53-56 | at 9:30:00 the bus at 9:45 is 15 minutes away, at 9:30:12.250 it is 14 |
| BusLineCard.EmptyHoursSkipped | components/bus-line-card.tsx:70-79 | empty later hours are passed over |
| BusLineCard.NoBusAfterLastOne | components/bus-line-card.tsx:83-86 | after the last listed bus there is none |
| RouteModal.NextBusTimes | components/route-modal.tsx:57-103 | the loops return the first three upcoming departures as bus times |
| RouteModal.FetchNextBusTimes | components/route-modal.tsx:51-55 | nothing is computed when the day type or line is missing; otherwise the dialog's list |
| RouteModal.AddBusTime | components/route-modal.tsx:64-77 | a bus time is appended exactly when it is strictly after now, and the list is otherwise unchanged |
| RouteModal.CollectCurrentHour | components/route-modal.tsx:79-87 | the current-hour loop, with no break, adds every listed minute above now, in list order |
| RouteModal.CollectAfter | components/route-modal.tsx:81-86 | the loop over one hour's tokens adds exactly the kept departures |
| RouteModal.CollectHour | components/route-modal.tsx:96-99 | one later hour adds a prefix of its departures, stopping only once three entries are held |
| RouteModal.CollectLaterHours | components/route-modal.tsx:89-101 | the later-hour loops add a prefix of the later departures that is complete unless three entries are held |
| RouteModal.RouteTimesAreFirstUpcoming | components/route-modal.tsx:79-103 | at most three entries, fewer only when fewer remain; entry `i` is upcoming departure `i` |
| RouteModal.RouteTimesAfterNow | components/route-modal.tsx:65-76 | every listed bus is strictly after now, with `minutesUntil` equal to `getMinutesDifference` and non-negative |
| RouteModal.RouteStartsWithCard | components/route-modal.tsx:80-101 | the list is empty exactly when the card shows no bus, and otherwise starts with the card's bus |
| RouteModal.RouteTimesIncreasing | components/route-modal.tsx:80-101 | with ascending minutes in every hour, the listed times are strictly increasing |
| RouteModal.CurrentHourFillsTheList | components/route-modal.tsx:80-103 | at 9:05 with 9:10, 9:20, 9:30 and 9:40 listed, the dialog shows the first three, 5, 15 and 25 minutes away |
| DateUtils.CurrentDay | lib/date-utils.ts:1-13 | always "Monday", whatever the day index |
| DateUtils.InitialDayType | app/page.tsx:15-17 | the document key of the start tab is "Saturday" on a Saturday and "weekday" on every other day |
| DateUtils.AlwaysWeekdayOnStart | app/page.tsx:13-17 | the start day is never Sunday and the start day type is always weekday |
| DateUtils.MinutesDifference | lib/date-utils.ts:31-34 | the floor of the millisecond gap divided by 60000 |
| DateUtils.MinutesDifferenceSigns | lib/date-utils.ts:31-34 | 0 for equal instants, non-negative forwards, negative backwards, and -1 one millisecond back |
| DateUtils.DisplayHour | lib/date-utils.ts:25 | `hour % 12 \|\| 12` lies in 1..12 and agrees with the hour modulo 12 |
| DateUtils.DisplayMinute | lib/date-utils.ts:26 | digits only, and exactly two digits spelling the minute when it is below 60 |
| DateUtils.FormatAMPM | lib/date-utils.ts:23-29 | the text ends with "PM" exactly when the hour is at least 12, otherwise with "AM" |
| DateUtils.FormatAMPMRoundTrip | lib/date-utils.ts:23-29 | every time of day reads back from its text as "<H>:<MM> <AM\|PM>" |
| DateUtils.FormatAMPMInjective | lib/date-utils.ts:23-29 | different times of day give different texts |
| DateUtils.FormatAMPMExamples | lib/date-utils.ts:23-29 | (0,0) gives "12:00 AM", (12,0) "12:00 PM", (13,5) "1:05 PM" and (23,59) "11:59 PM" |
| Strings.TrimStartStrips | components/route-modal.tsx:82 | `trim` keeps a suffix, removing only leading white space and all of it |
| Strings.TrimEndStrips | components/route-modal.tsx:82 | `trim` keeps a prefix, removing only trailing white space and all of it |
| Strings.DigitPrefixSpec | components/bus-line-card.tsx:51 | `parseInt` reads the longest run of leading digits |
| Strings.NatToString | components/bus-line-card.tsx:42 | `toString` of a number is decimal digits without a leading zero, one digit below 10 and two below 100 |
| Strings.DigitsValueOfNatToString | components/bus-line-card.tsx:42 | the digits of `toString` spell the number |
| Strings.ParseIntOfNatToString | components/bus-line-card.tsx:71 | `parseInt` of `toString` is the number again |
| Strings.NatToStringInjective | components/bus-line-card.tsx:71 | different hours have different keys |
| Strings.ParseIntOfDigits | components/bus-line-card.tsx:51 | `parseInt` of a digit string is the value the digits spell |
| Strings.TrimmedPaddedToken | components/route-modal.tsx:82 | " 05 " trims to "05" and parses to 5 |
| Sorting.SortNumeric | components/bus-line-card.tsx:68 | strictly ascending, with exactly the given numbers |
| Sorting.SortDefault | components/all-times-modal.tsx:92-93 | strictly ascending in character order, with exactly the given strings |
| Sorting.LexLeTotal | components/all-times-modal.tsx:93 | any two strings are comparable |
| Sorting.LexLeAntisymmetric | components/all-times-modal.tsx:93 | mutually ordered strings are equal |
| Sorting.LexLeTransitive | components/all-times-modal.tsx:93 | the string order is transitive |
| AllTimesModal.HourKeys | components/all-times-modal.tsx:92-93 | each hour key once, in string order |
| AllTimesModal.Cells | components/all-times-modal.tsx:101-110 | one cell per minute entry |
| AllTimesModal.Sections | components/all-times-modal.tsx:92-113 | one section per hour key |
| AllTimesModal.TenBeforeSix | components/all-times-modal.tsx:92-93 | hour "10" is listed before hour "6" |
| AllTimesModal.SectionOfEveryHour | components/all-times-modal.tsx:92-113 | each hour key has exactly one section, with its heading and its cells |
| AllTimesModal.HeaderLabel | components/all-times-modal.tsx:97-98 | a heading ends in ":00 " and then "PM" exactly when the key parses to an hour of at least 12, "AM" otherwise |
| AllTimesModal.HeaderOfHour | components/all-times-modal.tsx:97-98 | the heading is the hour less 12 above 12, else the key, then ":00", then "PM" exactly from hour 12 |
| AllTimesModal.OnTheHour | lib/date-utils.ts:23-29 | `formatAMPM(hour, 0)` is the display hour, ":00 " and the suffix |
| AllTimesModal.HeaderVersusFormatAMPM | components/all-times-modal.tsx:97-98 | the heading equals `formatAMPM(hour, 0)` exactly when the hour is not 0 |
| AllTimesModal.MidnightHeader | components/all-times-modal.tsx:97 | hour 0 is headed "0:00 AM" while `formatAMPM(0, 0)` is "12:00 AM" |
| AllTimesModal.AfternoonHeader | components/all-times-modal.tsx:97 | hour 13 is headed "1:00 PM" |
| AllTimesModal.CellReadsBack | components/all-times-modal.tsx:107 | each cell reads back as the section's hour and the entry's minute |
| AllTimesModal.CellsOfSameMinute | components/all-times-modal.tsx:101-110 | two cells are equal exactly when their entries name the same minute, so duplicates are kept |
| AllTimesModal.CellAgreesWithHeader | components/all-times-modal.tsx:98-107 | every cell has the AM/PM suffix of its heading |
| AllTimesModal.Render | components/all-times-modal.tsx:52-115 | nothing before loading; a spinner while loading; the line's sections once loaded; a throw for a missing day type, or for a missing line once loaded |
| AllTimesModal.CellsAreDepartures | components/all-times-modal.tsx:92-110 | every cell of the listing reads back as a departure of the line's schedule |
| AllTimesModal.DeparturesAreListed | components/all-times-modal.tsx:92-110 | every departure of the line's schedule is shown by some cell of the listing |
| AllTimesModal.OpensOnLineOne | components/all-times-modal.tsx:30-31 | the dialog opens on the weekday sections of "Line 1" |

## Left out

- Fetching `/timetable.json` and JSON parsing are not modelled. The document is an input.
- React state, effects, the loading skeletons, the `isOpen` guard of the dialogs and
  the `try`/`catch` logging are not modelled.
  - A missing day type makes the card and the route dialog throw inside their `try`.
    The model reports it as a missing route. The state the user sees is the same:
    no bus and loading over.
- The 60-second refresh timer and the one-second Sunday clock are not modelled. They
  only re-run the same computation.
- `formatTime` delegates to `toLocaleTimeString`, a locale service. It is not modelled.
- `Date` time zones, daylight saving and the overflow of `setMinutes` are not modelled.
  The clock is a time of day with hour 0..23, minute 0..59, second 0..59 and
  millisecond 0..999. `getHours`, `getMinutes`, `getSeconds` and `getMilliseconds`
  are taken as given.
- `getCurrentDay`: the `new Date().getDay()` call is a parameter, and its value is
  unused, as in the code.
- Full JavaScript `parseInt` is not modelled: no radix prefixes, no `NaN`, no exponent.
  - `WellFormed` requires every hour key to be a canonical decimal 0..23 and every
    trimmed minute token to be a digit string that reads as 0..59.
  - A padded key such as "09" would make the later-hour lookups miss. In the route
    dialog it would even throw on `for … of undefined`. Such tables are outside the model.
- `formatAMPM` is modelled on natural numbers. Negative and `NaN` hours and minutes
  are not modelled.
- Strings are Dafny `char` sequences. The default sort compares them character by
  character, which is the code-unit order of `sort()` for the digit keys used here.
- `lib/bus-routes.ts`, with its `Math.random` shuffle, is not modelled. The page
  layout, the day selector, the Sunday notice and the time blocks are presentation.
  Their one rule, "Saturday" gives Saturday and anything else gives weekday, is
  `DateUtils.InitialDayType`.
- The two engines keep their loops but are split into one method per loop (`ScanCurrentHour`, `ScanLaterHours`, `CollectCurrentHour`,
  `CollectAfter`, `CollectLaterHours`, `CollectHour`). The token parse is
  `RouteModal.ReadMinute`. The order of operations and the breaks are those of the code.
- BusLineCard.CardFromCurrentHour, BusLineCard.CardNoMoreBuses, RouteModal.RouteTimesAreFirstUpcoming,
  RouteModal.RouteStartsWithCard and the example lemmas are
  stated on the parsed schedule (`Normalize` of the table) rather than on the token
  strings. `Timetable.Normalize` connects the two.
- Timetable.MinuteOf: a minute token with a sign, a "0x" prefix or trailing text is
  outside the model, because `IsMinuteToken` demands a digit string after `trim`.
  `parseInt` would read "0x1A" as 26 and "-0x5" as -5. On such a table the card
  takes a later-hour minute without an after-now check and can show a negative
  `minutesUntil`. The model does not cover that.
