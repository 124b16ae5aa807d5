# Attendance reports of relatorio-presenca, in Dafny

relatorio-presenca is a dashboard for a support team. It turns the Intercom
"away mode" events of each attendant into reports. Every event is one
attendant switching away mode on (away) or off (present). This project
models the three computations those reports are made of:

- **Per-shift daily summaries** (`processAttendanceRecords`, module
  `AttendanceShifts`):
  - the events are grouped by user and then by UTC day;
  - a day's events are sorted and merged into raw periods of one state each;
  - each period's minutes of the day are credited to the shift windows it
    overlaps: Manhã 06:00–11:59, Tarde 12:00–18:00, Noite 18:01–23:59;
  - each active shift gets a record with a status: check-in only, suspicious,
    high absence, overtime or normal;
  - the day gets its totals, and the summaries are sorted by day.
- **Whole-range summary per attendant** (`calculateAttendance` and
  `formatMinutes`, module `Calculations`):
  - the events are grouped by user and sorted;
  - events that share a minute are compacted to the last one of that minute;
  - a timeline is built with pairwise present and away durations;
  - the result holds the totals, the current status and reason, and the
    availability percentage.
- **Daily rows of the attendant report page** (`buildDailyRows` and
  `formatFilterDate`, module `DailyReport`):
  - there is one row per UTC day of the selected range that has events;
  - each row holds the present and away totals, the first and last "HH:MM",
    the current status, and one label per away event.

Supporting modules:

- `Options`: the Option type.
- `Text`: digits, `padStart(2, "0")`, `split`, `parseInt`.
- `Clock`: UTC days, minutes of the day, ISO texts.
- `Collections`: filter, stable insertion sort, first-appearance grouping,
  position-indexed collection.
- `Intercom`: the event record, the timeline and summary records, pairwise
  sums and percentage rounding.

Modelling conventions:

- Timestamps are whole UTC seconds since the epoch.
- Durations are kept in seconds. The source's fractional minutes are those
  seconds divided by 60, taken as exact rationals.
- A day is written `DayOf(t) = t / 86400`. It stands for the `YYYY-MM-DD`
  prefix that the source takes from the ISO text.
- Each method that carries a loop of the source is proved equal to a
  specification function. The properties are then proved about that
  function.

## Model

| member | source | states |
|---|---|---|
| Clock.DayOf | src/lib/attendanceShifts.ts:94-97 | the day of an instant is the day whose midnight is at or before the instant and whose next midnight is after it |
| Clock.TimeText | src/lib/attendanceShifts.ts:79-81 | "HH:MM" has five characters with ':' in the middle |
| Clock.IsoText | src/lib/attendanceShifts.ts:303-309 | the ISO text is the date text, 'T', the "HH:MM" of the instant, then the seconds and ".000Z", 14 characters after the date |
| Clock.MinutesOfDay | src/lib/attendanceShifts.ts:61-64 | the UTC minute of the day lies in 0..1439 |
| Clock.MinutesOfDayAt | src/lib/attendanceShifts.ts:303-306 | setting the hours and minutes of a day's midnight to minute m lands on that day, at minute m of the day |
| Clock.SameMinute | src/lib/calculations.ts:19-21 | two instants share a minute exactly when they share the UTC day and the minute of that day |
| Clock.TimeTextInjective | src/lib/attendanceShifts.ts:74-82 | distinct minutes of the day have distinct "HH:MM" texts, and equal texts mean equal minutes |
| Clock.TimeTextFields | src/lib/attendanceShifts.ts:103-107 | both fields of "HH:MM" are digits, and reading them back as hours*60+minutes gives the minute of the day |
| Clock.IsoTextSlices | src/app/relatorios/atendente/page.tsx:82-84 | characters 11..16 of an ISO timestamp are its "HH:MM", and its first 16 characters are the date, "T" and "HH:MM" |
| Clock.IsoTextSplit | src/lib/attendanceShifts.ts:76 | an ISO timestamp splits on 'T' into exactly its date text and its time part |
| Clock.IsoTimeFields | src/lib/attendanceShifts.ts:79 | the time part splits on ':' into the padded hour, the padded minute and the seconds field |
| Text.ParseInt | src/lib/attendanceShifts.ts:104-106 | parseInt skips leading white space, then yields NaN (None) exactly when no digit follows the optional sign |
| Text.TrimStartCutsSpace | src/lib/attendanceShifts.ts:104-105 | the white space parseInt skips is a prefix of the text made of white space only, and what remains does not start with white space |
| Text.ParseIntSkipsSpace | src/lib/attendanceShifts.ts:104-105 | white space before the number does not change what parseInt reads |
| Text.ParseIntOfSpacedDigits | src/lib/attendanceShifts.ts:104-105 | a digit string after any white space reads back as its value |
| Text.ParseIntOfPad2 | src/lib/attendanceShifts.ts:104-105 | parseInt reads a number below 100, padded to two digits, back as the number |
| Text.Split | src/lib/attendanceShifts.ts:76 | split gives at least one part, the parts joined with the separator are the text, and no part contains the separator |
| Text.PadStart2 | src/lib/attendanceShifts.ts:81 | padStart(2, "0") gives at least two characters, ends with the text, and the added characters are zeros |
| Text.NatToString | src/lib/calculations.ts:80 | the decimal text of a number is non-empty, digits only, one digit exactly for numbers below 10, and has no leading zero otherwise |
| Text.ParseIntOfDigits | src/lib/attendanceShifts.ts:104-105 | parseInt reads back an unsigned digit string that is followed by a non-digit or by nothing |
| Text.Pad2Digits | src/lib/attendanceShifts.ts:81 | a number below 100 padded to two characters is two digits that read back as the number |
| Text.SplitAtFirst | src/lib/attendanceShifts.ts:76 | split cuts at the first occurrence of the separator |
| Collections.SortBy | src/lib/attendanceShifts.ts:218-220 | sorting by a key keeps the length and the multiset of elements |
| Collections.SortByIsSorted | src/lib/calculations.ts:11-13 | the sorted sequence is non-decreasing in the key |
| Collections.SortByIsStable | src/lib/calculations.ts:11-13 | elements with equal keys keep their input order, as in JavaScript's stable sort |
| Collections.SortedPermutationEnds | src/app/relatorios/atendente/page.tsx:66-68 | the first and last elements of a sorted permutation belong to the input and bound every key in it |
| Collections.KeysInOrder | src/lib/calculations.ts:4-10 | the dictionary's keys are distinct, every element's key is listed, and every listed key is some element's key |
| Collections.GroupBy | src/lib/calculations.ts:4-8 | the grouping loop lists the keys in first-appearance order, and under each key holds exactly the elements with that key, in input order |
| Collections.FilterStartsWithFirst | src/lib/calculations.ts:62-63 | a key's group is non-empty and starts with the first element carrying that key |
| Collections.FilterEmpty | src/lib/attendanceShifts.ts:298-301 | the filter keeps nothing exactly when no element passes |
| Collections.FilterFirst | src/lib/attendanceShifts.ts:308-309 | when some element passes, the filter's first element is a passing element with no passing element before it |
| Collections.FilterLast | src/lib/attendanceShifts.ts:310-313 | when some element passes, the filter's last element is a passing element with no passing element after it |
| Collections.PositionsAreKept | src/app/relatorios/atendente/page.tsx:58-62 | the indices a filtered range loop visits are exactly those that pass, each once, ascending |
| Collections.CollectAtPositions | src/app/relatorios/atendente/page.tsx:58-122 | the k-th pushed value is the value of the k-th passing index |
| Intercom.PairSumTelescopes | src/lib/calculations.ts:42-52 | present plus away time over pairwise gaps equals last event minus first event |
| Intercom.PairSumNonNegative | src/lib/calculations.ts:42-52 | on chronological events the present and away sums are non-negative |
| Intercom.RoundPercent | src/lib/calculations.ts:68 | exact-rational half-up rounding of present/total·100: the integer r with (2r-1)·total <= 200·present < (2r+1)·total, lying in 0..100 |
| Calculations.Round | src/lib/calculations.ts:77 | Math.round gives the integer r with r-0.5 <= x < r+0.5 (halves round up) |
| Calculations.RoundWhole | src/lib/attendanceShifts.ts:68 | rounding a whole number leaves it unchanged |
| Calculations.FormatMinutes | src/lib/calculations.ts:74-81 | null, undefined, zero and negative minutes format as "0m" |
| Calculations.FormatMinutesReadsBack | src/lib/calculations.ts:74-81 | the text reads back as hours h and minutes m with m < 60 and 60h+m equal to the rounded total (0 when not positive); no "7h 60m" can appear |
| Calculations.HoursMinutesText | src/lib/calculations.ts:78-80 | the text ends with 'm' and shows an hour field exactly when the total is at least 60 minutes |
| Calculations.ReadHoursMinutesText | src/lib/calculations.ts:78-80 | "Hh Mm" or "Mm" reads back as total/60 and total%60 |
| Calculations.MinuteKeyMatchesMinute | src/lib/calculations.ts:19-21 | the keys date.slice(0,16) of two ISO timestamps are equal exactly when the instants share a minute |
| Calculations.LastOfEachMinuteAppend | src/lib/calculations.ts:18-25 | one step of the compaction loop: an event in the last kept minute replaces it, otherwise it is pushed |
| Calculations.CompactByMinute | src/lib/calculations.ts:17-26 | the compaction loop returns LastOfEachMinute of the sorted events |
| Calculations.LastOfEachMinuteIsSubsequence | src/lib/calculations.ts:17-26 | compaction only drops events and keeps the order of the rest |
| Calculations.LastOfEachMinuteMembers | src/lib/calculations.ts:17-26 | the kept events are exactly those that are last or whose successor falls in another minute |
| Calculations.KeptIsLastOfItsMinute | src/lib/calculations.ts:15-26 | on chronological events an event is kept if and only if no later event shares its minute |
| Calculations.LastOfEachMinuteIncreasing | src/lib/calculations.ts:15-26 | after compaction the minutes strictly increase, so no two kept events share a minute |
| Calculations.LastOfEachMinuteCoversMinutes | src/lib/calculations.ts:15-26 | every minute that had an event still has a kept event |
| Calculations.CompactedIsChronological | src/lib/calculations.ts:11-26 | compacting chronological events leaves them chronological |
| Calculations.Timeline | src/lib/calculations.ts:32-55 | one timeline entry per kept event, with the same timestamp and reason; the type is "exit" if and only if away mode was on; a duration is present if and only if a next event exists, and it is the gap to that event |
| Calculations.BuildTimeline | src/lib/calculations.ts:28-55 | the timeline loop returns Timeline, and its totals are the pairwise present and away sums |
| Calculations.SummaryAvailability | src/lib/calculations.ts:68 | 100 when the total is zero; otherwise the rounded present percentage; always within 0..100 |
| Calculations.NonEmptyReason | src/lib/calculations.ts:67 | `reason \|\| null` gives a reason exactly when it is present and non-empty, and then gives it unchanged |
| Calculations.SummaryOf | src/lib/calculations.ts:10-70 | id, name and email come from the user's first event; totals are non-negative and add up to last minus first kept event (zero for one kept event); the status is away exactly when the last kept event is away; availability lies in 0..100 and is 100 for an empty total |
| Calculations.SummarizeUser | src/lib/calculations.ts:10-70 | the per-user mapping returns SummaryOf |
| Calculations.GroupOfUserIsNonEmpty | src/lib/calculations.ts:4-8 | every listed user has a non-empty group that starts with their first event |
| Calculations.AllSummaries | src/lib/calculations.ts:10 | one summary per distinct user |
| Calculations.AllSummariesAt | src/lib/calculations.ts:10-70 | the i-th summary is the summary of the i-th user's group |
| Calculations.CalculateAttendance | src/lib/calculations.ts:3-72 | calculateAttendance returns AllSummaries |
| Calculations.AllSummariesIdentify | src/lib/calculations.ts:60-63 | summary i belongs to user i and carries the name and email of that user's first event |
| Calculations.SummaryUsersDistinct | src/lib/calculations.ts:4-10 | no user gets two summaries |
| Calculations.SummaryUsersCover | src/lib/calculations.ts:4-10 | every user with an event gets a summary |
| Calculations.SummaryUsersOccur | src/lib/calculations.ts:4-10 | every summary belongs to a user with an event |
| Calculations.SummaryNamesFromFirst | src/lib/calculations.ts:62-63 | in every summary, name and email are those of the user's first event in input order |
| AttendanceShifts.Config | src/lib/attendanceShifts.ts:49-53 | each shift window is a non-empty range of minutes within the day, its overtime limit lies after the window's start and at most one minute after its end, and it has an icon |
| AttendanceShifts.ShiftIndex | src/lib/attendanceShifts.ts:261 | each shift has its position in the order Manhã, Tarde, Noite |
| AttendanceShifts.ShiftsOrderLists | src/lib/attendanceShifts.ts:261 | the shift order lists every shift, each at its own position |
| AttendanceShifts.FormatMinutesLocal | src/lib/attendanceShifts.ts:66-72 | the local formatter agrees with formatMinutes on every whole number of minutes |
| AttendanceShifts.FormatTime | src/lib/attendanceShifts.ts:74-82 | "-" for an empty text or one without 'T'; any other result contains ':' |
| AttendanceShifts.FormatTimeOfIso | src/lib/attendanceShifts.ts:74-82 | on an ISO timestamp it gives the "HH:MM" of its UTC minute of the day |
| AttendanceShifts.ExtractDateOnly | src/lib/attendanceShifts.ts:94-97 | the result is the prefix before the first 'T' (the whole text when there is none) |
| AttendanceShifts.ExtractDateOnlyOfIso | src/lib/attendanceShifts.ts:94-97 | on an ISO timestamp it gives the date text |
| AttendanceShifts.MinutesOfDayFromString | src/lib/attendanceShifts.ts:99-108 | a text without 'T' gives 0 |
| AttendanceShifts.MinutesOfDayFromFields | src/lib/attendanceShifts.ts:99-108 | when the hour and minute fields after the 'T' both parse, the result is hour*60 + minute |
| AttendanceShifts.MinutesOfDayFromSpacedFields | src/lib/attendanceShifts.ts:99-108 | white space before the hour is skipped: date, 'T', white space, hour digits, ':', minute digits gives hour*60 + minute |
| AttendanceShifts.MinutesOfDayFromSpacedHour | src/lib/attendanceShifts.ts:99-108 | "2026-01-06T 9:30" gives 570 |
| AttendanceShifts.MinutesOfDayFromIso | src/lib/attendanceShifts.ts:99-108 | on an ISO timestamp, parsing the hour and minute gives the UTC minute of the day (getMinutesOfDay) |
| AttendanceShifts.Periods | src/lib/attendanceShifts.ts:225-255 | there are no raw periods exactly when the day has fewer than two events (the early return) |
| AttendanceShifts.MergeIntervals | src/lib/attendanceShifts.ts:225-253 | the raw-period loop returns Periods of the sorted events |
| AttendanceShifts.PeriodsContiguous | src/lib/attendanceShifts.ts:225-253 | the periods run from the first event to the last, each starting where the previous one ends |
| AttendanceShifts.PeriodsSingleState | src/lib/attendanceShifts.ts:234-252 | each period holds one state: present time only or away time only, adding up to its length |
| AttendanceShifts.PeriodsAlternate | src/lib/attendanceShifts.ts:234-252 | consecutive periods have different states |
| AttendanceShifts.PeriodsLastState | src/lib/attendanceShifts.ts:234-252 | the last period has the state of the second-to-last event |
| AttendanceShifts.PeriodsKeepTotals | src/lib/attendanceShifts.ts:225-253 | the periods hold the same present and away time as the pairwise gaps, together spanning last minus first event |
| AttendanceShifts.PeriodsChronological | src/lib/attendanceShifts.ts:225-266 | on sorted events each period has entry <= exit and non-negative times, and counts as present (present > 0) exactly when it is a present period of positive length |
| AttendanceShifts.PeriodsBounded | src/lib/attendanceShifts.ts:225-253 | every period lies between the first and the last event |
| AttendanceShifts.Overlap | src/lib/attendanceShifts.ts:270-273 | the credited overlap is never negative |
| AttendanceShifts.OverlapBounds | src/lib/attendanceShifts.ts:270-273 | the overlap is at most the window length and at most the period's span of minutes |
| AttendanceShifts.OverlapCountsCreditedMinutes | src/lib/attendanceShifts.ts:49-53 | the overlap is the count of minutes m of the period with start <= m < end of the shift window |
| AttendanceShifts.WindowsDisjoint | src/lib/attendanceShifts.ts:49-53 | no minute is credited to two shifts |
| AttendanceShifts.UncreditedMinutes | src/lib/attendanceShifts.ts:49-53 | minutes 11:59, 18:00 and 23:59, and every minute before 06:00, are credited to no shift |
| AttendanceShifts.CreditedMinutesAddUp | src/lib/attendanceShifts.ts:268-281 | the three shifts' credited minutes add up to the minutes credited to any shift, at most the period's span |
| AttendanceShifts.OverlapsWithinSpan | src/lib/attendanceShifts.ts:268-281 | the overlaps with the three windows add up to at most the period's span |
| AttendanceShifts.ShiftPresent | src/lib/attendanceShifts.ts:275-276 | a shift's present minutes are never negative |
| AttendanceShifts.ShiftAway | src/lib/attendanceShifts.ts:277-278 | a shift's away minutes are never negative |
| AttendanceShifts.ActiveIffCredited | src/lib/attendanceShifts.ts:273-279 | a shift is active if and only if it was credited some present or away minutes |
| AttendanceShifts.AccumulateShifts | src/lib/attendanceShifts.ts:258-282 | the accumulation loop leaves ShiftPresent and ShiftAway in the maps and exactly the active shifts in the set |
| AttendanceShifts.CreditPeriod | src/lib/attendanceShifts.ts:263-281 | one period adds its overlap to present (if present > 0) or to away for every shift, and activates exactly the shifts it overlaps |
| AttendanceShifts.BelowHalf | src/lib/attendanceShifts.ts:166-179 | for a positive total, (present/total)*100 < 50 holds exactly when 2·present < total |
| AttendanceShifts.StatusLabel | src/lib/attendanceShifts.ts:168-189 | every status has a non-empty label |
| AttendanceShifts.StatusLabelInjective | src/lib/attendanceShifts.ts:168-189 | distinct statuses have distinct labels, already told apart by their first character |
| AttendanceShifts.ValidateAndGetStatus | src/lib/attendanceShifts.ts:159-190 | check-in only if and only if total 0; suspicious if and only if 0 < total < 5; high absence if and only if total >= 5 and below 50%; overtime or normal otherwise, split by the shift's overtime limit; the label matches the status |
| AttendanceShifts.ShiftAvailability | src/lib/attendanceShifts.ts:295 | 0 for a zero total, otherwise the rounded present percentage; always within 0..100 |
| AttendanceShifts.DisplayEntry | src/lib/attendanceShifts.ts:298-309 | the shown entry lies inside the shift window; it is the earliest event of the day in the window when there is one, and otherwise the window's start on that day |
| AttendanceShifts.DisplayExit | src/lib/attendanceShifts.ts:298-313 | the shown exit lies inside the shift window; it is the latest event of the day in the window when there is one, and otherwise the window's end on that day |
| AttendanceShifts.ExitMinutes | src/lib/attendanceShifts.ts:315-318 | the exit minutes are the minute of day of the shown exit, never past the window end |
| AttendanceShifts.FirstAndLastInWindow | src/lib/attendanceShifts.ts:298-301 | the first and last events in a shift lie in its window |
| AttendanceShifts.ShiftRecord | src/lib/attendanceShifts.ts:327-347 | the record carries the user, the day, the shift and its present and away minutes |
| AttendanceShifts.ShiftRecordStatus | src/lib/attendanceShifts.ts:315-325 | the status is validateAndGetStatus on the shown exit's minute; only Noite can be overtime; check-in only exactly when the shift has no minutes |
| AttendanceShifts.RecordsOfAt | src/lib/attendanceShifts.ts:288-347 | the k-th record is the record of the k-th listed shift with its accumulated minutes |
| AttendanceShifts.ActiveShiftsShape | src/lib/attendanceShifts.ts:288-289 | records are built for exactly the active shifts, in the order Manhã, Tarde, Noite |
| AttendanceShifts.RecordedShiftMinutes | src/lib/attendanceShifts.ts:288-294 | every record has its shift's minutes, a positive total and a status other than check-in only |
| AttendanceShifts.BuildShiftPeriods | src/lib/attendanceShifts.ts:284-348 | the record loop returns the records of the active shifts in shift order |
| AttendanceShifts.DayShifts | src/lib/attendanceShifts.ts:284-348 | every shift record of a day has non-negative minutes |
| AttendanceShifts.RecordsSum | src/lib/attendanceShifts.ts:350-352 | the reduce sums of the records equal the credited totals over the listed shifts |
| AttendanceShifts.InactiveAddNothing | src/lib/attendanceShifts.ts:288-289 | skipping inactive shifts loses no minutes |
| AttendanceShifts.TotalOverAll | src/lib/attendanceShifts.ts:350-352 | the total over the shift order is the three shifts' sum |
| AttendanceShifts.DaySummaryOf | src/lib/attendanceShifts.ts:217-368 | a day gets a summary exactly when it has at least two events, under its user and day |
| AttendanceShifts.DailyRollup | src/lib/attendanceShifts.ts:350-367 | the daily totals are the sums over the shift records |
| AttendanceShifts.DailyTotals | src/lib/attendanceShifts.ts:257-367 | a day's present and away totals are the minutes credited to Manhã, Tarde and Noite; its availability is the rounded percentage (0 for none); its shifts are the day's shift records |
| AttendanceShifts.ProcessDay | src/lib/attendanceShifts.ts:217-368 | the per-day body returns DaySummaryOf |
| AttendanceShifts.PushDays | src/lib/attendanceShifts.ts:217-368 | the per-day loop appends the summaries of the listed days, in order |
| AttendanceShifts.ProcessUser | src/lib/attendanceShifts.ts:207-369 | one user's pass groups the events by day and appends the days' summaries in first-appearance order |
| AttendanceShifts.ProcessAttendanceRecords | src/lib/attendanceShifts.ts:196-373 | processAttendanceRecords returns ProcessedRecords |
| AttendanceShifts.DailiesNext | src/lib/attendanceShifts.ts:207 | each user appends their days after the earlier users' |
| AttendanceShifts.ProcessedOrder | src/lib/attendanceShifts.ts:372 | the result is sorted by day, is a permutation of the pushed summaries, and keeps the push order within a day |
| AttendanceShifts.UserDailiesMembers | src/lib/attendanceShifts.ts:217-368 | every summary a user pushes is that user's summary of one of their days |
| AttendanceShifts.DailiesMembers | src/lib/attendanceShifts.ts:207-369 | every pushed summary is its user's summary of its day |
| AttendanceShifts.ProcessedSummariesAreTheirDays | src/lib/attendanceShifts.ts:196-373 | every returned summary is the summary of its own user's events on its own day |
| AttendanceShifts.UserDailiesCount | src/lib/attendanceShifts.ts:217-368 | with distinct days, a user pushes one summary for a day with at least two events and none otherwise |
| AttendanceShifts.DailiesCount | src/lib/attendanceShifts.ts:207-369 | with distinct users, each (user, day) pair is pushed once if it has at least two events and never otherwise |
| AttendanceShifts.GroupsOfAnEvent | src/lib/attendanceShifts.ts:198-214 | a user and day with any event are among the grouped users and that user's grouped days |
| AttendanceShifts.OneSummaryPerUserDay | src/lib/attendanceShifts.ts:196-373 | the result holds exactly one summary for each user and day with at least two events, and none for any other |
| AttendanceShifts.ProcessedShiftStatuses | src/lib/attendanceShifts.ts:288-325 | no returned shift is check-in only, and only Noite shifts are overtime |
| DailyReport.FormatFilterDate | src/app/relatorios/atendente/page.tsx:31-35 | "-" if and only if the text is empty |
| DailyReport.FormatFilterDateOfIsoDate | src/app/relatorios/atendente/page.tsx:31-35 | "YYYY-MM-DD" becomes "DD/MM/YYYY" |
| DailyReport.FilterDateReadsBack | src/app/relatorios/atendente/page.tsx:31-35 | the formatted date splits on '/' back into day, month and year |
| DailyReport.HourMinute | src/app/relatorios/atendente/page.tsx:82-84 | the "HH:MM" of an event is five characters |
| DailyReport.ReasonText | src/app/relatorios/atendente/page.tsx:94 | the reason, or "Ausente" when it is missing or empty; never empty |
| DailyReport.AwayLabelShape | src/app/relatorios/atendente/page.tsx:92-102 | specifies DailyReport.AwayLabel: an away label starts with the event's "HH:MM", a space and the reason; it is exactly that when the event is the day's last, and otherwise it continues with " (" and ends with ')' |
| DailyReport.LabelAtIs | src/app/relatorios/atendente/page.tsx:97-102 | the label of the last event has no duration part |
| DailyReport.LabelWithGapIs | src/app/relatorios/atendente/page.tsx:92-96 | the label of an event with a successor ends with the formatted gap in parentheses |
| DailyReport.AwayLabelsPerAwayEvent | src/app/relatorios/atendente/page.tsx:92-102 | the row has one label per away event, each once and in chronological order, and none for present events |
| DailyReport.DayRowOf | src/app/relatorios/atendente/page.tsx:66-122 | the row carries its day |
| DailyReport.BuildDayRow | src/app/relatorios/atendente/page.tsx:66-122 | the per-day body returns DayRowOf |
| DailyReport.AccumulateDay | src/app/relatorios/atendente/page.tsx:70-122 | the inner loop returns the row of the sorted events |
| DailyReport.CreditGap | src/app/relatorios/atendente/page.tsx:86-96 | one step credits the gap to away or present and adds the away label for this event |
| DailyReport.LabelWithGap | src/app/relatorios/atendente/page.tsx:92-96 | one step adds the away label with its duration |
| DailyReport.LabelLastEvent | src/app/relatorios/atendente/page.tsx:97-102 | the last step adds the away label without a duration |
| DailyReport.PairSumStep | src/app/relatorios/atendente/page.tsx:86-90 | each step adds the gap to the total of the current event's state |
| DailyReport.SortedDayEnds | src/app/relatorios/atendente/page.tsx:66-68 | the sorted day is chronological, and its first and last events are the day's earliest and latest |
| DailyReport.SortedDayRowTotals | src/app/relatorios/atendente/page.tsx:86-90 | a row's totals are non-negative and add up to last minus first event of the day |
| DailyReport.SortedDayRowStatus | src/app/relatorios/atendente/page.tsx:81-84 | first and last times are set, and the status is away exactly when the day's last event is away |
| DailyReport.LookupDay | src/app/relatorios/atendente/page.tsx:42-60 | `byDay[key] ?? []` is the day's events in input order |
| DailyReport.BuildDailyRows | src/app/relatorios/atendente/page.tsx:37-126 | buildDailyRows returns DailyRows |
| DailyReport.RowsAreTheRecordedDays | src/app/relatorios/atendente/page.tsx:58-122 | there is one row for each day in the range that has events, with that day's row, in ascending day order |
| DailyReport.DayHasEvents | src/app/relatorios/atendente/page.tsx:42-62 | a day is skipped exactly when no event falls on it |
| DailyReport.OtherDayUnchanged | src/app/relatorios/atendente/page.tsx:42-51 | an event on another day changes neither a day's presence nor its row |
| DailyReport.OutOfRangeIgnored | src/app/relatorios/atendente/page.tsx:55-62 | adding an event outside the range leaves the rows unchanged |

## Left out

- Object key order: `Object.entries` lists integer-like keys (such as numeric user ids) first, in ascending order. The model lists every key in order of first appearance. Day keys are never integer-like, so they are modelled exactly.
- The final `localeCompare` sort on the date text is modelled as sorting by day number. The two agree for four-digit years.
- Floating point is not modelled. Durations are exact seconds, the source's minutes are seconds/60, and the `< 50` availability test is the integer test 2·present < total (`AttendanceShifts.BelowHalf` proves this equivalent to the real-valued test).
- Intercom.RoundPercent, AttendanceShifts.ShiftAvailability, AttendanceShifts.DailyTotals, Calculations.SummaryAvailability: the availability percentage is exact-rational half-up rounding of present/total·100. The source computes `(present / total) * 100` in IEEE doubles before `Math.round`. When the exact value is a .5 tie, the double product can land just below it, and the source then rounds down where the model rounds up. Examples: 23/40 (57.49999999999999, shown as 57; the model gives 58), 29/200 (14 against 15) and 57/200 (28 against 29).
- Date parsing and time zones are not modelled. Events carry a UTC timestamp, not text. The day key is `DayOf(t)` rather than `extractDateOnly`/`slice(0, 10)` of the text, which agree on canonical UTC ISO text (`AttendanceShifts.ExtractDateOnlyOfIso`). The calendar rendering of a date is a parameter of `Clock.IsoText`.
- HourMinute: models `date.substring(11, 16)` as the "HH:MM" of the timestamp's UTC minute, which agrees with the substring on canonical ISO text (`Clock.IsoTextSlices`).
- AttendanceShifts.InWindow: models `getMinutesOfDayFromString(rec.date)` as the UTC minute of the day, which agrees on canonical ISO text (`AttendanceShifts.MinutesOfDayFromIso`).
- AttendanceShifts.DisplayEntry and AttendanceShifts.DisplayExit: return the shown instant, not its ISO text. The `entryFormatted`/`exitFormatted` text is the "HH:MM" of that instant, which is what `formatTime` gives on its ISO text (`AttendanceShifts.FormatTimeOfIso`).
- DailyReport.BuildDailyRows: takes the start and end dates as UTC days. `None` stands for a text that makes an Invalid Date, for which the source builds no rows.
- The labels `label` and `weekday` of a daily row (from `toLocaleDateString("pt-BR")`) are not modelled, because they depend on locale data. The shift icon is kept as a constant but not reasoned about.
- `splitPeriodByShifts`, `formatDate` and `formatTimeFromDate` are not modelled: nothing in the modelled code calls them. `formatDate` depends on locale data.
- The React page, the services, the hooks, the theme toggle and the Next.js configuration are not modelled: they are UI and I/O.
- In-place updates are modelled on values. Examples are `rawPeriods[last]` being mutated, the compaction overwriting its last slot, and the `shiftPeriods` Map. Their key order is the shift order, and no aliasing is observable.
- `away_mode_enabled` is a boolean, so values other than 0 or 1 are not modelled.
- Clock.TimeText: covers minutes of the day only (hours below 24), which is all the source produces.
