# Gym schedule: appointment query and day view

A Dafny model of the appointment-schedule core of a gym member front-end.

- **The mock query service** (`ScheduleDataService`). It holds an in-memory list of bookings and answers `getAppointments(date)`. It keeps the bookings whose `appointmentTime` string starts with the day's `YYYY-MM-DD` key, and maps each one to the view the signed-in member (id 20) may see. Everyone sees the hour (`time`) and whether the booking is their own (`isOwnAppointment`). Only the owner also sees `id`, `ptName` and `status`. The answer is always `{ success: true, appointments }`.
- **The live schedule page** (`SchedulePage`). It shows one day as eight hourly slots, 9 AM to 4 PM. Each slot looks up the first loaded record at its hour and is classed `booked` (clickable) or `available`. Labels use a 12-hour clock. Loading keeps the records of a successful answer and keeps none otherwise. The page moves between days by a signed offset.

Modules:

| file | module | contents |
|---|---|---|
| `Wrappers.dfy` | `Wrappers` | `Option`; `None` stands for an absent/`undefined` property and for `NaN` |
| `Decimal.dfy` | `Decimal` | zero-padded and shortest decimal numerals and their values |
| `Calendar.dfy` | `Calendar` | proleptic Gregorian days, `NextDay`/`PrevDay`/`AddDays` (what `setDate(getDate() + k)` does), the `YYYY-MM-DD` key and its parser |
| `Timestamps.dfy` | `Timestamps` | `YYYY-MM-DDTHH:MM:SS` local timestamps, `HourOf` (`new Date(s).getHours()`), `StartsWith` |
| `ScheduleData.dfy` | `ScheduleData` | the booking store, the fixture, the view transform, `GetAppointments` |
| `SchedulePage.dfy` | `SchedulePage` | slots, lookup, slot rendering, `formatTime`, load state, `changeDate` |
| `ScheduleIntegration.dfy` | `ScheduleIntegration` | page and service together: the lookup mismatch, the corrected lookup, the fixture day, paging against the store |

Design choices:

- A JavaScript `Date` is modelled as the calendar day it denotes. `formatDate` is its ISO key.
- A view record has optional `appointmentTime` and `memberName` fields. The page reads these fields, but the service never sets them. Keeping them in the record lets the model state the lookup mismatch listed under Findings.
- The page's hour lookup is written once, `FindByHour`, over a choice of where the hour is read from. `FromAppointmentTime` is what the live page does. `FromTime` reads the field the service fills in.

## Model

| member | source | states |
|---|---|---|
| ScheduleData.NewService | scripts/utils/scheduleData.js:3-48 | the service answers for member 20 over five bookings with ids 76 to 80, of which exactly the first two are that member's own |
| ScheduleData.IsOnIffKeyPrefix | scripts/utils/scheduleData.js:58-60 | a booking is on a key exactly when its timestamp string is the key followed by some rest |
| ScheduleData.TransformAll | scripts/utils/scheduleData.js:63-73 | one view per booking, in order: the i-th view is the view of the i-th booking |
| ScheduleData.Transform | scripts/utils/scheduleData.js:63-73 | the view is own exactly when the booking's `memberId` equals the current member; `time` is the hour of `appointmentTime`; a foreign view has no `id`, `ptName` or `status`; an own view copies all three unchanged; no view carries `appointmentTime` or `memberName` |
| ScheduleData.ForeignViewsRevealOnlyHour | scripts/utils/scheduleData.js:66-72 | two foreign bookings at the same hour give identical views, so nothing but the hour of another member's booking reaches the page |
| ScheduleData.FilterByDate | scripts/utils/scheduleData.js:58-60 | each booking occurs in the result as often as in the store when its timestamp starts with the key, and not at all otherwise |
| ScheduleData.FilterByDateMembership | scripts/utils/scheduleData.js:58-60 | a booking is in the result if and only if it is stored and its timestamp starts with the key |
| ScheduleData.FilterByDateAppend | scripts/utils/scheduleData.js:58-60 | filtering a concatenation is the concatenation of the filtered parts, so store order is kept |
| ScheduleData.TransformAllMembership | scripts/utils/scheduleData.js:63-73 | every mapped view is the view of some input booking, and every input booking's view is among them |
| ScheduleData.TransformAllAppend | scripts/utils/scheduleData.js:63-73 | mapping distributes over concatenation |
| ScheduleData.GetAppointments | scripts/utils/scheduleData.js:51-79 | the answer always reports success and no error; every returned view is the view of a stored booking on the day's key; every stored booking on the key has its view returned; no returned view has `appointmentTime` or `memberName` |
| ScheduleData.GetAppointmentsOneToOne | scripts/utils/scheduleData.js:58-73 | there are as many views as matching bookings, and the i-th view is the view of the i-th match |
| ScheduleData.GetAppointmentsKeepsOrder | scripts/utils/scheduleData.js:58-73 | the answer for a store `xs + ys` is the answer for `xs` followed by the answer for `ys` |
| ScheduleData.GetAppointmentsSelectsDay | scripts/utils/scheduleData.js:55-60 | for well-formed timestamps, the prefix test holds exactly for bookings whose timestamp falls on the requested day, so every view comes from a booking on that day |
| Calendar.DaysInMonth | scripts/pages/schedule.js:299 | a month has 28 to 31 days, and February has 29 exactly in leap years |
| Calendar.NextDay | scripts/pages/schedule.js:299 | the next day is a valid day strictly after the given one |
| Calendar.NextDayIsImmediate | scripts/pages/schedule.js:299 | no valid day lies strictly between a day and its successor |
| Calendar.PrevDay | scripts/pages/schedule.js:299 | the previous day is a valid day strictly before the given one |
| Calendar.PrevDayIsImmediate | scripts/pages/schedule.js:299 | no valid day lies strictly between a day's predecessor and the day |
| Calendar.PrevDayOfNextDay | scripts/pages/schedule.js:299 | stepping forward then back returns to the day |
| Calendar.NextDayOfPrevDay | scripts/pages/schedule.js:299 | stepping back then forward returns to the day |
| Calendar.AddDays | scripts/pages/schedule.js:299 | shifting by `k` days gives a valid day: later for positive `k`, earlier for negative `k`, the same day for 0; a shift by 1 is the next day and a shift by -1 the previous day, so with `AddDaysAdditive` a shift by `k` is exactly `k` single steps |
| Calendar.AddDaysAdditive | scripts/pages/schedule.js:299 | shifting by `k` and then by `j` is shifting by `k + j` |
| Calendar.AddDaysInverse | scripts/pages/schedule.js:299 | shifting by `k` and then by `-k` returns to the start |
| Calendar.YearString | scripts/utils/scheduleData.js:82 | years 0..9999 are four digits that read back as the year; other years take a sign (`-` for negative) and six digits, which read back as the year's absolute value when it is below a million |
| Calendar.FormatDate | scripts/utils/scheduleData.js:81-83 | the key has no `T`, so it is the whole ISO date part; for years 0..9999 it has 10 characters with `-` at positions 4 and 7 |
| Calendar.FormatDateChars | scripts/utils/scheduleData.js:81-83 | the key of a day in years 0..9999 is its zero-padded year, month and day joined by `-` |
| Calendar.ParseDateKey | scripts/utils/scheduleData.js:81-83 | a key parses only to a valid day in years 0..9999 |
| Calendar.FormatDateParses | scripts/utils/scheduleData.js:81-83 | the key of a day parses back to that day |
| Calendar.ParsedDateKeyFormats | scripts/utils/scheduleData.js:81-83 | a string that parses as a key is the key of the day it parses to |
| Calendar.FormatDateInjective | scripts/utils/scheduleData.js:81-83 | distinct days have distinct keys |
| Timestamps.FormatTimestamp | scripts/utils/scheduleData.js:13 | a timestamp string has 19 characters |
| Timestamps.ParseTimestamp | scripts/utils/scheduleData.js:64 | a string parses only to a valid date-time |
| Timestamps.HourOf | scripts/utils/scheduleData.js:64 | the hour is defined (not `NaN`) exactly when the string parses, and then lies in 0..23 |
| Timestamps.FormatTimestampParses | scripts/utils/scheduleData.js:64 | a timestamp string parses back to its moment, and its hour is the `HH` written in it |
| Timestamps.ParsedTimestampFormats | scripts/utils/scheduleData.js:64 | a string that parses is the timestamp string of what it parses to |
| Timestamps.FormatTimestampChars | scripts/utils/scheduleData.js:13 | the timestamp string is the date key, `T`, and the zero-padded hour, minute and second separated by `:` |
| Timestamps.FormatTimestampStartsWithKey | scripts/utils/scheduleData.js:58-60 | a timestamp string starts with the key of its own day |
| Timestamps.StartsWithKeyIffOnDay | scripts/utils/scheduleData.js:58-60 | a well-formed timestamp starts with a day's key exactly when it falls on that day |
| Decimal.DigitsValue | scripts/utils/scheduleData.js:82 | a `w`-digit string has a value below 10^w |
| Decimal.FixedDigits | scripts/utils/scheduleData.js:82 | a zero-padded field has exactly the requested width and only digits |
| Decimal.FixedDigitsValue | scripts/utils/scheduleData.js:82 | a `w`-digit field reads back as the number modulo 10^w |
| Decimal.FixedDigitsRoundTrip | scripts/utils/scheduleData.js:82 | a number that fits reads back from its field unchanged |
| Decimal.DigitsRoundTrip | scripts/utils/scheduleData.js:82 | a digit string is the zero-padded field of its own value |
| Decimal.NatToString | scripts/pages/schedule.js:332 | the numeral of a natural number is a non-empty digit string with no leading zero that reads back as the number |
| Decimal.IntToString | scripts/pages/schedule.js:332 | a non-negative number's numeral is non-empty, has no leading zero and reads back as the number; a negative one's is `-` followed by such a numeral of its absolute value |
| SchedulePage.TimeSlotsFromNine | scripts/pages/schedule.js:155 | there are 8 slots, and slot `i` is hour `i + 9` |
| SchedulePage.RecordHourSources | scripts/pages/schedule.js:237 | read from `time`, the hour is that field; read from `appointmentTime`, it is defined exactly when that field is present and parses, and then lies in 0..23 |
| SchedulePage.FirstWithHour | scripts/pages/schedule.js:235-240 | a found index holds a record at the hour and no earlier record has it; when none is found, no record has the hour |
| SchedulePage.FindByHour | scripts/pages/schedule.js:235-240 | a found record is the first at the hour in list order; nothing is found if and only if no record has the hour |
| SchedulePage.FindAppointmentForHour | scripts/pages/schedule.js:235-240 | a found record has an `appointmentTime` whose hour is the slot's; nothing is found exactly when no record with an `appointmentTime` has that hour |
| SchedulePage.FindAppointmentForHourCorrected | scripts/pages/schedule.js:68 | a found record's `time` is the hour; nothing is found exactly when no record has that `time` |
| SchedulePage.CreateTimeSlot | scripts/pages/schedule.js:242-267 | the slot shows the hour's label and the given record; it is `booked` exactly when a record is given, and clickable exactly when booked |
| SchedulePage.RenderSlots | scripts/pages/schedule.js:218-233 | one slot per entry of `timeSlots`, in slot order; each shows the first record at its hour; booked if and only if one was found; clickable only when booked |
| SchedulePage.RenderSlotsBookedIff | scripts/pages/schedule.js:228-232 | a slot is booked exactly when some loaded record has its hour, and a booked slot shows the first such record |
| SchedulePage.Render | scripts/pages/schedule.js:228-240 | each slot shows what the live lookup finds for its hour, and is booked exactly when it finds something |
| SchedulePage.RenderCorrected | scripts/pages/schedule.js:228-232 | each slot shows what the lookup by `time` finds for its hour, and is booked exactly when it finds something |
| SchedulePage.DisplayHourClock | scripts/pages/schedule.js:331 | the displayed hour is the hour itself or 12 less, so its position on a 12-hour clock is kept; for hours 0..23 it lies in 0..12, and in 1..12 for hours 1..23, which leaves exactly one value |
| SchedulePage.PeriodAtNoon | scripts/pages/schedule.js:330 | the period is `PM` exactly from hour 12 on and `AM` exactly below it |
| SchedulePage.FormatTimeParts | scripts/pages/schedule.js:329-333 | where the numeral, `:00 ` and the period sit inside a label, which is the slicing that `FormatTimeReadsBack` reads the hour back from |
| SchedulePage.FormatTimeReadsBack | scripts/pages/schedule.js:329-333 | the suffix is `PM` exactly from hour 12 on and `AM` below it; for non-negative hours the numeral is non-empty, has no leading zero and reads back as the hour, less 12 past noon |
| SchedulePage.FormatTimeInjective | scripts/pages/schedule.js:329-333 | no two hours of 0..23 share a label |
| SchedulePage.FormatTimeMorning | scripts/pages/schedule.js:329-333 | hours 0..9 are labelled with their own digit and `AM`; 9 is "9:00 AM" |
| SchedulePage.FormatTimeNoon | scripts/pages/schedule.js:329-333 | 12 is "12:00 PM" |
| SchedulePage.FormatTimeAfternoon | scripts/pages/schedule.js:329-333 | hours 13..21 lose 12 and take `PM`; 13 is "1:00 PM" |
| SchedulePage.InitialState | scripts/pages/schedule.js:158-160 | the page starts on the given day with no records and not loading |
| SchedulePage.InitialStateAllAvailable | scripts/pages/schedule.js:158-160 | before the first load every rendered slot is available |
| SchedulePage.StartLoading | scripts/pages/schedule.js:201 | the loading flag is set; the day and the records are unchanged |
| SchedulePage.FinishLoading | scripts/pages/schedule.js:204-215 | after a successful answer the records are the answer's; after `success: false` or a thrown error there are none; the flag is cleared either way |
| SchedulePage.LoadAppointments | scripts/pages/schedule.js:199-216 | the day is unchanged, the flag is cleared, and the records are the answer's on success and empty otherwise |
| SchedulePage.LoadAppointmentsForgetsPrior | scripts/pages/schedule.js:199-216 | the loaded state depends only on the day and the outcome, not on earlier records; loading twice with the same outcome is loading once |
| SchedulePage.ChangeDate | scripts/pages/schedule.js:298-302 | the new day is the shown day shifted by exactly `offset` days (`AddDays`): valid, later for a positive offset, earlier for a negative one, the same for 0; the records follow the outcome as in loading |
| SchedulePage.ChangeDateRoundTrip | scripts/pages/schedule.js:298-302 | `changeDate(k)` then `changeDate(-k)` shows the original day, in the same state as reloading it |
| SchedulePage.ChangeDateComposes | scripts/pages/schedule.js:298-302 | `changeDate(k)` then `changeDate(j)` is `changeDate(k + j)` |
| ScheduleIntegration.FixtureTimestamp | scripts/utils/scheduleData.js:9-47 | each fixture timestamp is the timestamp string of a valid moment: the date and the on-the-hour time written in it |
| ScheduleIntegration.FixtureTimestampsParse | scripts/utils/scheduleData.js:9-47 | every fixture timestamp parses, and its hour is the `HH` written in it |
| ScheduleIntegration.FixtureOnDay | scripts/utils/scheduleData.js:9-47 | a fixture booking matches a day's key exactly when its timestamp falls on that day |
| ScheduleIntegration.FixtureDayMatches | scripts/utils/scheduleData.js:55-60 | in the fixture, the bookings on 2024-11-16 are 76 and 78, in store order |
| ScheduleIntegration.FixtureDayViews | scripts/utils/scheduleData.js:51-79 | the fixture service answers 2024-11-16 with the views of bookings 76 and 78, in that order |
| ScheduleIntegration.FixtureView | scripts/utils/scheduleData.js:63-73 | a fixture booking's view has the hour written in its timestamp, is own exactly for member 20's bookings, and shows the id only then |
| ScheduleIntegration.ServiceViewsNeverMatchLiveLookup | scripts/pages/schedule.js:235-240 | the live lookup finds nothing, at any hour, among the records the service returns |
| ScheduleIntegration.LivePageShowsEverySlotAvailable | scripts/pages/schedule.js:228-240 | with the service's records loaded, the live page classes every slot `available` |
| ScheduleIntegration.OwnBookingShownAvailable | scripts/pages/schedule.js:235-240 | any own booking at a slot hour is in the service's answer, yet the live page shows its slot available |
| ScheduleIntegration.FixtureOwnBookingShownAvailable | scripts/pages/schedule.js:235-240 | member 20's booking 76 at 11 AM on 2024-11-16 is in the answer, yet the live 11 AM slot is available |
| ScheduleIntegration.CorrectedSlotBookedIffStored | scripts/pages/schedule.js:68 | with the lookup by `time`, a slot is booked exactly when the store has a booking on that day at that hour, and the record shown is such a booking's view |
| ScheduleIntegration.CorrectedLookupNineAndEleven | scripts/pages/schedule.js:68 | with one record at 11 AM and then one at 9 AM, the lookup by `time` finds each at its own hour and nothing at the other slots |
| ScheduleIntegration.RenderCorrectedNineAndEleven | scripts/pages/schedule.js:228-232 | with one record at 11 AM and then one at 9 AM, each slot of the corrected grid is as expected: the 9 AM and 11 AM slots show those records, and every other slot is available |
| ScheduleIntegration.FixtureCorrectedDay | scripts/pages/schedule.js:228-232 | on the fixture's 2024-11-16, slot by slot, the corrected grid books 9 AM for another member and hides the id, books 11 AM as member 20's booking 76, and leaves every other slot available |
| ScheduleIntegration.Reload | scripts/pages/schedule.js:199-216 | reloading keeps the day, clears the flag, and holds the service's answer for that day |
| ScheduleIntegration.Page | scripts/pages/schedule.js:298-302 | paging gives the shifted valid day, and the service's answer for it |
| ScheduleIntegration.PagingThereAndBackRestores | scripts/pages/schedule.js:298-302 | paging by `k` and then `-k` against the same store gives the state and grid of reloading the original day, as written and corrected |
| ScheduleIntegration.ReloadIdempotent | scripts/pages/schedule.js:199-216 | reloading twice is reloading once |

## Left out

- DOM work is not modelled: building elements, `innerHTML`, the booked slot's member and trainer names, the details modal (`showAppointmentDetails`, `closeModal`) and the `is-loading` class that `setLoading` toggles. A slot is modelled as its hour, label, class, record and clickability.
- `init` is not modelled: the authentication redirect and the event wiring. `showError` and `console.error` have no effect on state and are left out too.
- `formatDateForDisplay` is not modelled. It is locale formatting (`toLocaleDateString`).
- The 500 ms simulated delay and the `async`/`await` sequencing are not modelled. `getAppointments` is a pure function. The load outcome is an input (`LoadOutcome`), so interleaved clicks are not modelled.
- Time of day, time zones and daylight saving are not modelled. `toISOString` keys the UTC date, but the page's `Date` is local, so near midnight the real key can name a neighbouring day. Here a date is the calendar day it denotes.
- Calendar.FormatDate: does not model the `RangeError` that `toISOString` throws for dates outside the JavaScript range (about ±275,760 years). Every day has a key here.
- Calendar.AddDays: day arithmetic is unbounded here. In JavaScript a `Date` holds at most ±8.64e15 ms (100,000,000 days either side of 1970-01-01); paging past that leaves the page's date invalid for good, since a day shift of an invalid date stays invalid, and every later load fails and shows no records. `SchedulePage.ChangeDateRoundTrip`, `SchedulePage.ChangeDateComposes` and `ScheduleIntegration.PagingThereAndBackRestores` therefore describe the source only while every day they pass through stays inside that range.
- Timestamps.HourOf: reads only the exact `YYYY-MM-DDTHH:MM:SS` form, with fields in range. It is `None` (standing for `NaN`) for every other string, although JavaScript's date parser accepts more forms. Every stored timestamp has that exact form.
- ScheduleData.Transform: the view record has no `memberId`, `ptId` or `checkInTime` field. "Never carries them" therefore holds by the record's type, not by a lemma. `Option` does not separate an absent property from one holding `undefined` or `null`.
- There are no `your-appointment`/`unavailable` slot classes and no multi-day window: the live page has only `booked` and `available`, for one day, and the model follows it.
- `Response.error` is always `None`: the service never sets it. The page only reads it into an error message, which is not modelled.
- The commented-out earlier page version is not modelled. Only its `time`-based lookup is used, as the corrected lookup.

## Findings

| source | as written | input that shows it | evidently intended | confidence | as-written member | corrected member |
|---|---|---|---|---|---|---|
| scripts/pages/schedule.js:235-240 | `findAppointmentForHour` compares `new Date(apt.appointmentTime).getHours()` with the slot hour. The records from `getAppointments` (scripts/utils/scheduleData.js:63-73) have no `appointmentTime`, so that hour is `NaN` and no record is ever found. | The fixture service on 2024-11-16: member 20's booking 76 at 11:00 is in the answer, yet the 11 AM slot renders `available`. The same holds for every slot on every day. | Look records up by the `time` field the service fills in, as the earlier version did (scripts/pages/schedule.js:68). | not executed | ScheduleIntegration.FixtureOwnBookingShownAvailable | ScheduleIntegration.CorrectedSlotBookedIffStored |
