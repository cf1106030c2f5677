# Coach calendar: a verified model of the scheduling and booking rules

This project models the logic of a coaching-appointment calendar: a web page
where coaches book onboarding and weekly follow-up calls with clients, with
the bookings kept in a Firestore collection. It covers:

- the fixed grid of time slots of a day, 20 minutes apart but for one 10-minute gap (`generateTimeSlots`);
- when a booking occupies a date: a weekly booking by weekday, any other by
  its exact ISO date;
- filling a day's slots with bookings, and the 12-hour display of slot times;
- the in-memory parts of the booking service: the duplicate query, the
  84-day recurring-conflict check, the upcoming page and the statistics;
- the calendar page's state: the day shown, slot clicks, the admission
  workflow of a new booking with its two refusals, and deletion;
- the booking form: its client search, its state, and the booking it submits;
- the duplicate report and the recurring counter of the data-safety panel;
- the client roster helpers: filters, search, statistics, the validator and
  the sanitiser, and the built-in roster of 25 clients.

Modules, one per source file plus shared definitions:

| module | file | models |
|---|---|---|
| `Common` | common.dfy | JavaScript string and number helpers used throughout (`toString`, `padStart`, `toLowerCase`, `trim`, `includes`, `replace(/\s+/g, '')`, string `<=`, `Array.filter`, a number that may be NaN) |
| `Types` | types.dfy | the records of types/index.ts |
| `Dates` | dates.dfy | ISO dates, `new Date(s).getDay()`, `addDays`/`subDays`, `getDayName` |
| `CalendarUtils` | calendar_utils.dfy | utils/calendar.ts |
| `Firestore` | firestore.dfy | lib/firestore.ts, with the bookings collection as a class over a sequence |
| `DataSafety` | data_safety.dfy | components/DataSafetyFeatures.tsx |
| `CalendarView` | calendar_view.dfy | components/Calendar.tsx |
| `BookingModal` | booking_modal.dfy | components/BookingModal.tsx |
| `Clients` | clients.dfy | data/clients.ts, over any client list |
| `Roster` | roster.dfy | the built-in client list of data/clients.ts |

The browser is taken to run at UTC+0, so a date is read, shifted and written
in UTC (see "## Findings" for what a zone with daylight saving does). The
model reads exactly the ISO dates `YYYY-MM-DD` of years 0000-9999 with a day
inside its month; any other string has weekday NaN: `getDay()` gives NaN, and
`===` with NaN is always false. So a follow-up booked on such a date carries a
weekday but occupies no date, and it never conflicts with anything.

Four behaviours of the code that the model keeps as written:

- The slot loop resets the minutes to 0 instead of subtracting 60, so the grid
  is 10:30, 10:50, 11:00, 11:20, … , 19:00, 19:20. That is 28 slots, with one
  10-minute gap, and no 19:30 slot.
- The duplicate report lists every booking that has an earlier twin (same
  client, date and time). The first booking of each group, in snapshot order,
  is never listed.
- The recurring-conflict window ends 84 days after today, not 84 days after
  the new booking's date.
- `clientService.getStats` guards both of its divisions against zero.
  `getClientStats` of data/clients.ts guards neither.

## Model

| member | source | states |
|---|---|---|
| Types.Persist | lib/firestore.ts:282-288 | a stored booking carries exactly the submitted fields, plus the new id and creation time |
| Types.BookingStatusPartition | types/index.ts:23 | the four booking statuses split any list: their counts sum to its length |
| Types.ClientStatusPartition | types/index.ts:7 | the three client statuses split any list: their counts sum to its length |
| Dates.ShiftDays | utils/calendar.ts:112-123 | moving a valid date by n days gives a valid date whose day number is n further on |
| Dates.NextDayInverse | utils/calendar.ts:112-123 | the day before the next day is the original date |
| Dates.PrevDayInverse | utils/calendar.ts:112-123 | the next day after the previous day is the original date, one day number earlier |
| Dates.WeekdayShiftWeeks | utils/calendar.ts:42 | whole weeks do not change the weekday |
| Dates.WeekdayNextDay | utils/calendar.ts:42 | the next day's weekday is one more, modulo 7 |
| Dates.FormatIsoDate | utils/calendar.ts:115 | the `YYYY-MM-DD` text of a date has the ISO shape |
| Dates.ParseIsoDate | utils/calendar.ts:113 | only well-formed, valid dates of years 0000-9999 are read |
| Dates.ParseFormat | utils/calendar.ts:113-115 | reading back the ISO text of a date gives the date |
| Dates.FormatParse | utils/calendar.ts:113-115 | re-formatting a readable date string gives the same string |
| Dates.ShiftForwardYears | lib/firestore.ts:228-229 | going forward n days moves the year forward by at most n |
| Dates.IsoDateText | lib/firestore.ts:230 | `toISOString` writes years up to 9999 as the ISO date, which reads back; later years in the `+YYYYYY` form, which the model's `ParseIsoDate` does not read (JavaScript's `new Date` does) |
| Dates.AddDays | utils/calendar.ts:112-116 | a date exactly when the input reads as a date and the result stays within years 0000-9999; the result reads back as the date n days later |
| Dates.SubDays | utils/calendar.ts:119-123 | a date exactly when the input reads as a date and the result stays within years 0000-9999; the result reads back as the date n days earlier |
| Dates.AddDaysInZone | utils/calendar.ts:112-116 | `addDays` in a browser with a local zone: while the zone keeps one offset, it is `AddDays` |
| Dates.ZoneShift | utils/calendar.ts:113-115 | under one fixed offset, moving the wall clock by n days moves the UTC date by n days |
| Dates.SpringForwardStuck | utils/calendar.ts:112-116 | in New York on a spring-forward day, `addDays(date, 1)` gives `date` back, where `AddDays` moves on |
| Dates.SubThenAddDay | utils/calendar.ts:112-123 | `addDays(subDays(d, 1), 1)` is `d` |
| Dates.AddThenSubDay | utils/calendar.ts:112-123 | `subDays(addDays(d, 1), 1)` is `d` |
| Dates.GetDay | utils/calendar.ts:42 | the weekday is a number in 0..6 exactly when the date is readable, else NaN |
| Dates.GetDayAddWeeks | utils/calendar.ts:42 | a date whole weeks away has the same weekday |
| Dates.GetDayNextDay | utils/calendar.ts:42 | the next day's weekday is one more, modulo 7 |
| Dates.GetDayEpoch | utils/calendar.ts:42 | 1970-01-01 is a Thursday (Sunday is 0) |
| Dates.DayName | utils/calendar.ts:79-90 | the name is the weekday's entry of the Sunday-first table, and there is none for an unreadable date |
| CalendarUtils.ClockStep | utils/calendar.ts:14-18 | one loop turn moves the clock from the i-th reading to the next |
| CalendarUtils.ClockGuard | utils/calendar.ts:8 | the loop guard holds exactly for the first 28 readings |
| CalendarUtils.GenerateTimeSlots | utils/calendar.ts:3-22 | the loop returns the slot grid |
| CalendarUtils.SlotGridAt | utils/calendar.ts:9-12 | slot i is the clock's i-th reading, zero-padded |
| CalendarUtils.ClockStringReads | utils/calendar.ts:9-11 | a padded `HH:MM` reads back as its minutes of the day |
| CalendarUtils.SlotAt | utils/calendar.ts:9-12 | slot i is an `HH:MM` string at the i-th clock reading |
| CalendarUtils.SlotGridShape | utils/calendar.ts:9-12 | every slot is a zero-padded 5-character `HH:MM` |
| CalendarUtils.ClockMinutesStep | utils/calendar.ts:14-18 | the clock steps 10 minutes once (10:50 to 11:00) and 20 minutes otherwise |
| CalendarUtils.SlotGridGaps | utils/calendar.ts:8-19 | the grid runs from 10:30 to 19:20; the second gap is 10 minutes and every other gap is 20 |
| CalendarUtils.ClockMinutesIncreasing | utils/calendar.ts:14-18 | later clock readings are later in the day |
| CalendarUtils.SlotGridIncreasing | utils/calendar.ts:8-19 | slots are strictly increasing, so no slot repeats |
| CalendarUtils.SlotGridBeforeCutoff | utils/calendar.ts:8-19 | every slot is before 19:30 and there is no 19:30 slot |
| CalendarUtils.ClockStringDigits | utils/calendar.ts:9-11 | the slot text is two hour digits, a colon and two minute digits |
| CalendarUtils.PadDigits | utils/calendar.ts:9-11 | padding a number below 100 gives its tens and units digits |
| CalendarUtils.SlotText | utils/calendar.ts:9-11 | slot i spells out the digits of the i-th reading |
| CalendarUtils.SlotGridEnds | utils/calendar.ts:3-22 | the grid starts 10:30, 10:50, 11:00 and ends 19:20 |
| CalendarUtils.CreateDaySchedule | utils/calendar.ts:24-35 | the date is kept; there is one free slot per grid time, in order, with no booking |
| CalendarUtils.IsBookingOnDate | utils/calendar.ts:37-47 | a weekly booking with a weekday occupies exactly the readable dates whose weekday equals it; any other booking occupies exactly its own date |
| CalendarUtils.RecurringRepeatsWeekly | utils/calendar.ts:41-43 | a weekly booking occupies a date exactly when it occupies that date shifted by whole weeks |
| CalendarUtils.OneOffOccupiesOnlyItsDate | utils/calendar.ts:46 | a booking that is not weekly, or has no weekday, occupies exactly its own date |
| CalendarUtils.RecurringOutOfRangeNever | utils/calendar.ts:41-43 | a weekly booking whose weekday is NaN or outside 0..6 occupies no date |
| CalendarUtils.FirstOccupantIndex | utils/calendar.ts:54-56 | the index found is the first booking occupying the date and time, or -1 when none does |
| CalendarUtils.FindOccupant | utils/calendar.ts:54-56 | a booking is found exactly when one occupies the slot, and it is the first such in list order |
| CalendarUtils.PopulateTimeSlots | utils/calendar.ts:49-69 | the date, slot count and times are kept; a slot is booked exactly when some booking occupies it, and it carries the first one |
| CalendarUtils.ScheduleFor | components/Calendar.tsx:32-35 | the day shown has one slot per grid time, in grid order, booked exactly when a booking occupies the day at that time, and then carrying the first such booking |
| CalendarUtils.PopulateNoBookings | utils/calendar.ts:53-63 | without bookings every slot is free |
| CalendarUtils.PopulateIdempotent | utils/calendar.ts:53-68 | populating twice with the same bookings equals populating once |
| CalendarUtils.SingleOneOffBooking | utils/calendar.ts:37-69 | a one-off booking marks exactly its own time on its own date |
| CalendarUtils.SingleWeeklyBooking | utils/calendar.ts:37-69 | a weekly booking marks its time on exactly the readable dates of its weekday |
| CalendarUtils.TwelveHour | utils/calendar.ts:75 | the displayed hour is in 1..12 and agrees with the hour modulo 12 |
| CalendarUtils.FormatTimeDisplay | utils/calendar.ts:71-77 | the display is the 12-hour hour printed without a leading zero, the minutes as written, and PM exactly from 12:00 |
| CalendarUtils.DisplaySuffix | utils/calendar.ts:71-77 | equal displays have equal minutes, the same AM/PM half and equal hours modulo 12 |
| CalendarUtils.SameHalfSameHour | utils/calendar.ts:74-75 | within a day, the AM/PM half and the hour modulo 12 fix the hour |
| CalendarUtils.FormatTimeDisplayInjective | utils/calendar.ts:71-77 | different times of day never display alike |
| CalendarUtils.DisplayAfternoon | utils/calendar.ts:71-77 | 13:20 shows as 1:20 PM |
| CalendarUtils.DisplayNoon | utils/calendar.ts:71-77 | 12:00 shows as 12:00 PM |
| CalendarUtils.DisplayMorning | utils/calendar.ts:71-77 | 10:30 shows as 10:30 AM |
| CalendarUtils.DisplayMidnight | utils/calendar.ts:71-77 | 00:40 shows as 12:40 AM |
| Firestore.TimestampMillis | lib/firestore.ts:26-31 | a timestamp becomes its instant in milliseconds, cut toward zero: for a non-negative one, its seconds in milliseconds plus its whole milliseconds of nanoseconds |
| Firestore.ConvertValue | lib/firestore.ts:49-56 | a timestamp becomes the date at its instant in milliseconds, and any other value is kept |
| Firestore.ConvertFields | lib/firestore.ts:49-57 | the same keys, with no timestamp left |
| Firestore.ConvertDocument | lib/firestore.ts:43-63 | nothing for a missing document; otherwise its fields plus `id`, other values unchanged, timestamps converted, and `id` from the document unless the data has its own |
| Firestore.ConvertDocumentIdempotent | lib/firestore.ts:43-63 | converting a converted document changes nothing |
| Firestore.ConvertDocumentDataIdWins | lib/firestore.ts:59-62 | a data field named `id` overrides the document id |
| Firestore.GetByClientAndTime | lib/firestore.ts:209-217 | exactly the stored bookings of the client at that date and time |
| Firestore.GetByClientAndTimeInOrder | lib/firestore.ts:209-217 | the result keeps store order |
| Firestore.HorizonEnd | lib/firestore.ts:227-230 | there is an end exactly when today reads as a date; it is the ISO date 84 days on while that stays within year 9999, and text starting with `+` after |
| Firestore.CheckRecurringConflicts | lib/firestore.ts:220-239 | exactly the client's recurring bookings with equal weekday and time, dated from the start date to the window's end; nothing only when today cannot be read |
| Firestore.ExpandedEndFindsNothing | lib/firestore.ts:227-238 | once today plus 84 days is past year 9999, no booking dated from a start that begins with a digit is in the window |
| Firestore.StartAfterHorizonFindsNothing | lib/firestore.ts:228-238 | a start date after today plus 84 days finds nothing |
| Firestore.EarlierAnchorNotReported | lib/firestore.ts:237 | a booking dated before the start date is never reported |
| Firestore.NaNDayFindsNothing | lib/firestore.ts:235 | a NaN weekday matches no booking |
| Firestore.DateTimeLeTotal | lib/firestore.ts:263-266 | any two bookings are ordered by date, then time |
| Firestore.DateTimeLeTrans | lib/firestore.ts:263-266 | the date-then-time order is transitive |
| Firestore.InsertByDateTime | lib/firestore.ts:263-266 | insertion adds exactly the one booking |
| Firestore.InsertKeepsSorted | lib/firestore.ts:263-266 | insertion keeps a sorted list sorted |
| Firestore.SortByDateTime | lib/firestore.ts:263-266 | the sort gives a sorted permutation of its input |
| Firestore.SliceEnd | lib/firestore.ts:267 | `slice(0, limit)` keeps `limit` items, fewer when short, and counts a negative limit from the end |
| Firestore.UpcomingSorted | lib/firestore.ts:254-266 | exactly the scheduled bookings dated today or later, sorted by date and time |
| Firestore.SameMembers | lib/firestore.ts:263-266 | lists with equal multisets have the same members |
| Firestore.GetUpcomingPaginated | lib/firestore.ts:252-268 | a sorted prefix of the upcoming bookings, at most `limit` long, each scheduled and dated today or later |
| Firestore.PageHoldsEarliest | lib/firestore.ts:263-267 | no upcoming booking left off the page comes before one on it |
| Firestore.LargeLimitReturnsAll | lib/firestore.ts:267 | a limit of at least the number of upcoming bookings returns them all |
| Firestore.GetBookingStats | lib/firestore.ts:306-320 | the total and the counts of completed, scheduled (upcoming) and cancelled bookings, with no-shows uncounted; the completion rate is the guard's literal 0 exactly for an empty store, otherwise the rounded ratio of completed to total, which can itself round to 0 |
| Firestore.BookingStatsBounds | lib/firestore.ts:309-318 | the three counts sum to at most the total, and the completion rate is at most 100% |
| Firestore.GetClientServiceStats | lib/firestore.ts:128-143 | the total and the counts of active, inactive and prospect clients, which sum to the total; each percentage is the guard's literal 0 exactly when its divisor is zero, otherwise the rounded ratio, which can itself round to 0 |
| Firestore.ClientServiceStatsNoNaN | lib/firestore.ts:140-141 | every percentage that is computed has a positive divisor |
| Firestore.WithoutId | lib/firestore.ts:301-304 | exactly the bookings with another id are kept |
| Firestore.IdsCons | lib/firestore.ts:301-304 | the ids of a list are its head's id and the ids of its tail |
| Firestore.DistinctIdsCons | lib/firestore.ts:301-304 | the tail of a list with distinct ids has distinct ids, none of them the head's |
| Firestore.WithoutIdCount | lib/firestore.ts:301-304 | deleting by id removes one booking when the id is stored and none otherwise, and keeps ids distinct |
| Firestore.BookingStore.constructor | lib/firestore.ts:322-327 | a collection starts with the given distinct-id bookings |
| Firestore.BookingStore.Add | lib/firestore.ts:282-288 | a new id is returned and exactly one booking, the submitted one with that id and creation time, is appended |
| Firestore.BookingStore.Delete | lib/firestore.ts:301-304 | exactly the booking with that id is removed |
| DataSafety.FindIndexFrom | components/DataSafetyFeatures.tsx:39-43 | the first index from the start point with the same client, date and time, or -1 when there is none |
| DataSafety.ReportedIffEarlierTwin | components/DataSafetyFeatures.tsx:38-44 | a booking's first twin is elsewhere exactly when an earlier booking has its client, date and time |
| DataSafety.DuplicatesFrom | components/DataSafetyFeatures.tsx:38-44 | from a start point, exactly the bookings with an earlier twin are listed |
| DataSafety.CheckDuplicates | components/DataSafetyFeatures.tsx:37-47 | exactly the bookings with an earlier twin are reported |
| DataSafety.TwinInPrefix | components/DataSafetyFeatures.tsx:38-44 | appending a booking does not change whether an earlier one has a twin |
| DataSafety.TwinOfLast | components/DataSafetyFeatures.tsx:38-44 | an appended booking has an earlier twin exactly when its key is already present |
| DataSafety.DuplicatesFromStep | components/DataSafetyFeatures.tsx:38-44 | the report from a point is that booking's report followed by the rest |
| DataSafety.DuplicatesFromSnoc | components/DataSafetyFeatures.tsx:38-44 | appending a booking appends it to the report exactly when its key is already present |
| DataSafety.CheckDuplicatesSnoc | components/DataSafetyFeatures.tsx:38-44 | appending a booking adds it to the report exactly when its key is already present |
| DataSafety.KeysSnoc | components/DataSafetyFeatures.tsx:40-42 | appending a booking adds its key |
| DataSafety.CheckDuplicatesCount | components/DataSafetyFeatures.tsx:37-47 | the report is as long as the input less the number of distinct keys |
| DataSafety.CheckDuplicatesEmptyIff | components/DataSafetyFeatures.tsx:97 | nothing is reported exactly when all keys are distinct |
| DataSafety.PairReportsSecond | components/DataSafetyFeatures.tsx:39-43 | two identical bookings give one report, the second |
| DataSafety.DuplicatesFromSubsequence | components/DataSafetyFeatures.tsx:38 | the report from a point is a subsequence of the rest of the input |
| DataSafety.CheckDuplicatesInOrder | components/DataSafetyFeatures.tsx:38 | the report is a subsequence of the input, in input order |
| DataSafety.RecurringCount | components/DataSafetyFeatures.tsx:115 | the recurring figure is at most the number of bookings |
| DataSafety.RecurringCountSnoc | components/DataSafetyFeatures.tsx:115 | an appended booking adds one exactly when it is recurring |
| DataSafety.RecurringCountZeroIff | components/DataSafetyFeatures.tsx:115 | the figure is zero exactly when no booking is recurring |
| CalendarView.Decide | components/Calendar.tsx:53-77 | refused as a duplicate exactly when the client has a booking at that date and time; otherwise a recurring booking with a weekday is refused exactly when a conflict lies in the window, listing exactly the conflicting bookings (or fails when today cannot be read); otherwise admitted |
| CalendarView.OneOffSkipsRecurringCheck | components/Calendar.tsx:64-77 | a booking that is not recurring is only ever refused as a duplicate |
| CalendarView.NaNDayNeverConflicts | components/Calendar.tsx:64-77 | a follow-up with a NaN weekday is only ever refused as a duplicate |
| CalendarView.ExpandedEndNeverConflicts | components/Calendar.tsx:64-77 | once today plus 84 days is past year 9999, a booking with a four-digit-year date is only ever refused as a duplicate |
| CalendarView.AdmittedNotReported | components/Calendar.tsx:53-84 | an admitted booking never shows up in the duplicate report |
| CalendarView.AdmissionKeepsStoreClean | components/Calendar.tsx:53-84 | admitting bookings keeps a store free of duplicates |
| CalendarView.Navigate | components/Calendar.tsx:37-42 | next and previous move the date by one day |
| CalendarView.NavigateRoundTrip | components/Calendar.tsx:37-42 | next then previous, or previous then next, returns to the date |
| CalendarView.ForwardThenBack | components/Calendar.tsx:37-42 | next then previous returns to the date |
| CalendarView.BackThenForward | components/Calendar.tsx:37-42 | previous then next returns to the date |
| CalendarView.OnboardingCount | components/Calendar.tsx:158 | the onboarding counter is at most the number of bookings |
| CalendarView.FollowUpCount | components/Calendar.tsx:164 | the follow-up counter is at most the number of bookings |
| CalendarView.CallCountsBound | components/Calendar.tsx:158-164 | the onboarding and follow-up counters together are at most the number of bookings |
| CalendarView.FormBookingsRecurIffFollowUp | components/Calendar.tsx:164-170 | when every booking recurs exactly when it is a follow-up, the recurring counter equals the follow-up counter |
| CalendarView.Calendar.constructor | components/Calendar.tsx:12-20 | the page opens on today, with no bookings yet, loading, and the form closed |
| CalendarView.Calendar.OnSnapshot | components/Calendar.tsx:23-35 | the page takes the store's bookings, stops loading, and the schedule follows |
| CalendarView.Calendar.HandleDateChange | components/Calendar.tsx:37-42 | the date moves one day, the schedule shows the new day, and nothing else changes |
| CalendarView.Calendar.HandleTimeSlotClick | components/Calendar.tsx:44-49 | a booked slot changes nothing; a free slot opens the form on its time and changes nothing else |
| CalendarView.Calendar.HandleBookingCreated | components/Calendar.tsx:51-92 | a refused booking leaves the store and the form as they were; an admitted one is appended and closes the form; the page's bookings, date, schedule and loading flag are untouched |
| CalendarView.Calendar.HandleDeleteBooking | components/Calendar.tsx:94-102 | exactly the booking with that id is removed from the store |
| BookingModal.ModalSearch | components/BookingModal.tsx:30-40 | an empty term lists everyone; otherwise exactly the clients whose lower-cased name contains the lower-cased term or whose phone contains the term |
| BookingModal.ModalSearchNarrows | components/BookingModal.tsx:30-40 | typing more only narrows the list |
| BookingModal.ModalSearchNameIgnoresCase | components/BookingModal.tsx:32-34 | a name match survives lower-casing the term |
| BookingModal.BuildBooking | components/BookingModal.tsx:53-65 | the booking copies the client's coach, id, name and phone, and the date and time; it recurs and has a weekday exactly for a follow-up, whose weekday is the date's; it is scheduled and lasts 60 minutes |
| BookingModal.FollowUpOccupiesItsWeekday | components/BookingModal.tsx:64 | a follow-up on a readable date occupies that date and exactly the dates sharing its weekday |
| BookingModal.FollowUpOnUnreadableDateOccupiesNothing | components/BookingModal.tsx:64 | a follow-up on an unreadable date occupies no date |
| BookingModal.FollowUpRecursWeekly | components/BookingModal.tsx:61-64 | a follow-up occupies its date shifted by any whole number of weeks |
| BookingModal.OnboardingOccupiesItsDate | components/BookingModal.tsx:61 | an onboarding call occupies exactly its own date |
| BookingModal.Modal.constructor | components/BookingModal.tsx:24-28 | the form opens with no client, an onboarding call, and an empty search listing everyone |
| BookingModal.Modal.SetSearchTerm | components/BookingModal.tsx:30-40 | the list answers the new term and nothing else changes |
| BookingModal.Modal.SelectClient | components/BookingModal.tsx:24 | the picked client is selected and nothing else changes |
| BookingModal.Modal.SetCallType | components/BookingModal.tsx:25 | the call type is set and nothing else changes |
| BookingModal.Modal.HandleSubmit | components/BookingModal.tsx:42-74 | nothing without a selected client; otherwise the booking built from the form |
| Clients.GetClientsByStatus | data/clients.ts:283-285 | exactly the clients with that status |
| Clients.GetActiveClients | data/clients.ts:273-275 | exactly the active clients |
| Clients.ActiveClientsAreByStatus | data/clients.ts:273-285 | the active clients are the clients of status active |
| Clients.GetClientsByCoach | data/clients.ts:278-280 | exactly the coach's clients |
| Clients.SearchClients | data/clients.ts:288-294 | exactly the clients whose lower-cased name or email contains the lower-cased query; the phone is not searched |
| Clients.SearchEmptyFindsAll | data/clients.ts:288-294 | the empty query returns every client |
| Clients.SearchIgnoresCase | data/clients.ts:289 | lower-casing the query changes nothing |
| Clients.GetClientStats | data/clients.ts:297-311 | the total and the counts of active, inactive and prospect clients, which sum to the total; both percentages are unguarded ratios, so an empty roster or one without active clients and prospects gives the NaN of 0 / 0 |
| Clients.ValidateClient | data/clients.ts:322-325 | true exactly when id, name, phone, coachId, status and createdAt are all present |
| Clients.ValidateIgnoresValues | data/clients.ts:324 | only the presence of a key matters, not its value |
| Clients.MapText | data/clients.ts:405-408 | an optional-chained string method gives text exactly when the field is text, else undefined |
| Clients.NormalizeEmailIdempotent | data/clients.ts:406 | normalising an email twice equals normalising it once |
| Clients.SanitizeClientData | data/clients.ts:402-410 | name and notes trimmed, email lower-cased and trimmed, phone stripped of white space, all four keys present, every other field unchanged |
| Clients.MapTextAgain | data/clients.ts:405-408 | an idempotent string method applied again to its own result changes nothing |
| Clients.SanitizeIdempotent | data/clients.ts:402-410 | sanitising twice equals sanitising once |
| Clients.UpdateSame | data/clients.ts:403-409 | writing back a record's own values changes nothing |
| Clients.ValidateAfterSanitize | data/clients.ts:322-325 | after sanitising, a record is valid exactly when id, coachId, status and createdAt are present |
| Roster.ClientsIds | data/clients.ts:18-269 | the roster holds 25 clients with the distinct ids "1" to "25" |
| Common.SeqSnoc | utils/calendar.ts:12 | pushing the next value extends the sequence built so far |
| Common.Filter | data/clients.ts:274 | `Array.filter` keeps exactly the elements that pass, and never more than the input |
| Common.FilterConcat | data/clients.ts:274 | filtering distributes over concatenation, so kept elements keep their order |
| Common.FilterSnoc | data/clients.ts:274 | filtering a list with one more element adds it exactly when it passes |
| Common.FilterComplement | lib/firestore.ts:309-311 | a predicate and its negation split a list in two |
| Common.FilterMonotone | lib/firestore.ts:309-311 | a weaker predicate keeps at least as many elements |
| Common.FilterFilter | lib/firestore.ts:215-217 | a query's `where` followed by `.filter` selects exactly the elements meeting both, in order |
| Common.FilterEquivalent | data/clients.ts:274 | filtering depends only on which elements the predicate accepts |
| Common.FilterAll | data/clients.ts:274 | a predicate every element meets keeps the whole list |
| Common.DigitChar | utils/calendar.ts:9-11 | a digit's character reads back as that digit |
| Common.ParseNatLeadingZero | utils/calendar.ts:9-11 | a leading zero does not change a number's value |
| Common.NatToString | utils/calendar.ts:9-11 | `toString` gives a digit string without leading zeros that reads back as the number |
| Common.NatToStringInjective | utils/calendar.ts:9-11 | different numbers print differently |
| Common.TwoDigits | utils/calendar.ts:9-11 | `padStart(2, "0")` of a number below 100 gives two digits that read back as it |
| Common.StrLeRefl | lib/firestore.ts:237-238 | string `<=` is reflexive |
| Common.StrLeTotal | lib/firestore.ts:264-265 | any two strings are ordered |
| Common.StrLeAntisym | lib/firestore.ts:264-265 | strings ordered both ways are equal |
| Common.StrLeTrans | lib/firestore.ts:237-238 | string `<=` is transitive |
| Common.ContainsSlice | components/BookingModal.tsx:33-34 | `includes` finds any block that occurs |
| Common.ContainsPrefix | components/BookingModal.tsx:33-34 | a text containing a longer term contains its beginning |
| Common.Lower | data/clients.ts:289 | `toLowerCase` maps upper-case letters and keeps everything else and the length |
| Common.LowerIdempotent | data/clients.ts:289 | lower-casing twice equals lower-casing once |
| Common.LowerConcat | components/BookingModal.tsx:33 | lower-casing distributes over concatenation |
| Common.TrimStart | data/clients.ts:405 | only leading white space is removed |
| Common.TrimEnd | data/clients.ts:405 | only trailing white space is removed |
| Common.Trim | data/clients.ts:405 | the input is the result with white space at both ends, and the result has none at either end |
| Common.PaddedPieces | data/clients.ts:405 | trimming the front and then the back removes white space from both ends |
| Common.TrimIdempotent | data/clients.ts:405 | trimming twice equals trimming once |
| Common.LowerCharSpace | data/clients.ts:406 | lower-casing never makes or removes white space |
| Common.LowerTrimStart | data/clients.ts:406 | lower-casing commutes with trimming the front |
| Common.LowerTrimEnd | data/clients.ts:406 | lower-casing commutes with trimming the back |
| Common.LowerTrim | data/clients.ts:406 | lower-casing commutes with trimming |
| Common.RemoveSpaces | data/clients.ts:407 | the result is the input's non-white-space characters, in order |
| Common.RemoveSpacesNone | data/clients.ts:407 | a string without white space is kept |
| Common.RemoveSpacesIdempotent | data/clients.ts:407 | removing white space twice equals removing it once |

## Left out

- Firestore I/O is not modelled: queries, `onSnapshot` subscriptions, `addDoc`/`updateDoc`/`deleteDoc`, `writeBatch` and the `where`/`orderBy` server side. The collection is a sequence held by `Firestore.BookingStore`, and each `where` clause is a filter conjunct.
- Firestore.BookingStore.Add: the generated document id and `Timestamp.now()` are parameters, and the id is required to be new.
- `bookingService.update`, `getAll`, `getByDate`, `getByDateRange`, `getUpcoming` and the `batchService`, and the client service's queries and writes other than `getStats`, are not modelled: they are queries or writes with no logic beyond I/O.
- `convertToTimestamp` is not modelled; it only wraps a `Date` for the SDK.
- Firestore.TimestampMillis: `toMillis` sums floating-point numbers; the model takes the sum exactly, so rounding of very large timestamps is not captured.
- The page's rendering, styling, icons, `alert`/`console` messages, the data-safety toggle and React's effect plumbing are not modelled. The schedule effect is folded into the handlers' invariant that the schedule always shows the selected day.
- The `catch` paths of the handlers are not modelled. `toISOString` throws only for an invalid `Date`; the model's one such case is a `today` that cannot be read, which the clock never produces. It is the `Unavailable` verdict, which writes nothing.
- The form's `isSubmitting` flag is not modelled; it only disables the button while the call is in flight.
- CalendarView.Navigate: when the shown date cannot be read, JavaScript's `toISOString` throws; the model keeps the date instead. It also keeps the date at the ends of years 0000-9999, where JavaScript moves on to an expanded-year date.
- Percentages: `Math.round` over floating-point division is kept symbolic as a `RoundedRatio(numerator, denominator)`, and the ratio itself is not computed.
- The clock is a parameter: "today" in `checkRecurringConflicts` and `getUpcomingPaginated`, the page's first date, and the creation time.
- The browser is at UTC+0 throughout the model, apart from `Dates.AddDaysInZone`. `new Date("YYYY-MM-DD")` is UTC midnight, but `setDate` and `getDay` work in local time, so a browser elsewhere misbehaves in ways the model does not capture:
  - the Next arrow is stuck on a spring-forward day (the one case recorded under "## Findings");
  - `subDays` skips a day when the clocks go back (`subDays("2024-11-04", 1)` is "2024-11-02" in New York);
  - west of UTC, `getDay` and so `getDayName` give the previous weekday, and the header names the wrong day.
- CalendarView.NavigateRoundTrip, CalendarView.ForwardThenBack, CalendarView.BackThenForward and CalendarView.Calendar.HandleDateChange: "one day" and the round trips hold for a browser at UTC+0 only.
- Dates.GetDay: only `YYYY-MM-DD` is read. Expanded-year dates (`+010000-01-01`), days past the month's end (`2024-02-30`), and the other forms `new Date` accepts (`YYYY`, `YYYY-MM`, date-time strings) are unreadable, weekday NaN. JavaScript reads the expanded years and the other forms, and V8 rolls an overflowing day over to the next month while other engines reject it. The program itself only produces `YYYY-MM-DD`.
- Firestore.BookingStore.Add: the new booking goes at the end of the sequence, so the sequence's order is arrival order. The program sees the snapshot in document-id order, and `addDoc` ids are random, so a new booking can land anywhere. Which booking a shared slot shows (`find` takes the first) and which member of a duplicate group goes unreported follow the model's order, not the program's.
- CalendarView.Calendar.HandleBookingCreated: an admitted booking is appended at the end, with the same consequence; `AdmittedNotReported` is proved for that position only.
- Dates.AddDays: gives no date when the result leaves years 0000-9999, where `toISOString` prints the expanded `+YYYYYY`/`-YYYYYY` form (and `new Date` reads it back). Only the window's end in `checkRecurringConflicts` keeps the expanded text (`Firestore.HorizonEnd`).
- Dates.SubDays: likewise gives no date outside years 0000-9999.
- `getFormattedDate` and `formatDateForInput` are not modelled; they are display formatting of a `Date`.
- Unicode is not modelled. `toLowerCase` is ASCII lower-casing, and `localeCompare` and string `<=` are ordinal comparison of character codes. That is exact for the ISO date and `HH:MM` strings compared.
- Firestore.GetUpcomingPaginated: the order among bookings with equal date and time is that of the model's insertion sort; whether JavaScript's sort keeps it is not stated.
- The race between the two checks and the write in `handleBookingCreated` is not modelled; each handler runs as one step.
- `getRecentClients`, `getCoachPerformance`, `getClientSegments`, `getClientLifecycle` and `generateClientReport` are not modelled: they depend on the clock or are reporting arithmetic over floats.
- The roster's notes are not modelled (every client's `notes` is `None`); creation dates are UTC midnights in milliseconds. Ids, names, phones, emails, coaches and statuses are as listed.
- JavaScript's loose values are not modelled, apart from the NaN weekday. Records are typed, so a missing `time` or a non-string field cannot occur.

## Findings

| source | as written | input that shows it | evidently intended | confidence | as-written member | corrected member |
|---|---|---|---|---|---|---|
| utils/calendar.ts:112-116 | the date is read at UTC midnight, moved with the local `setDate`, and written back in UTC | `addDays("2024-03-10", 1)` in America/New_York, whose clocks go forward at 07:00 UTC that day, gives "2024-03-10", so the Next arrow never leaves 10 March | "2024-03-11", the next calendar date | high; not executed | Dates.SpringForwardStuck | Dates.AddDays |
