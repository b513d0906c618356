# Intermittent-fasting timer: a verified model

This project models the core of an intermittent-fasting app in Dafny.

- **Timer store** (`Timer.TimerStore`): cycles through *idle*, *fasting* and *eating*. Stopping a cycle appends a fasting record, and records can be deleted.
- **Record statistics** (`Records`):
  - records grouped by day;
  - the current and longest streaks of completed days;
  - success rate, average duration, and this week's summary.
- **Notification hook** (`Notifications.NotificationHook`): schedules the "fasting finished" notice and the "eating window closes in 30 minutes" reminder. It keeps the identifiers it was given.
- **Settings store** (`Settings.SettingsStore`): the chosen plan, the custom hours, the usual eating start time and the notification toggles.
- **Preset plans** (`Plans`).
- **Time and date helpers** (`TimeFormat`, `DateUtils`).
- **Settings and record screens**: the calendar grid and its day markers (`Calendar`), the day detail panel (`DayDetail`), the hour picker (`TimePicker`) and the custom-hours inputs (`PlanSelector`).

Stores that change in place are classes:
- every action has a `modifies` frame;
- every action states each field it sets and which fields it leaves alone;
- the timer store and the notification hook have a `Valid()` invariant that their actions keep. For the notification hook's single `ScheduleNotification` this is stated on the state it leaves, by the lemma `Notifications.AppendKeepsConsistent`.

Code that builds strings and numbers becomes functions. Each function has a partner lemma: a parser that reads its output back, a reference definition, or a law connecting two operations.

The loops of the source are methods with invariants. Each one is proved equal to a specification function:
- grouping by day;
- collecting the completed days;
- counting the current streak;
- the longest-streak scan.

The loops that build the calendar grid produce exactly the cells that their ensures give, cell by cell.

The week bounds (`getWeekStart`, `getWeekEnd`) have no loop. They update a `Date` in place with `setDate` and `setHours`. They are methods whose ensures determine the resulting instant.

Conventions:
- **Instants** are integer milliseconds since the epoch.
- **Time zone**: the local zone is taken to be UTC, so a record's day is `startTime / 86_400_000`. Weeks start on Sunday.
- **ISO-8601 strings**: the source stores instants as ISO strings. They are modelled by the instant they denote. The `YYYY-MM-DD` keys are modelled by their day number, while the key format and its round trip are proved separately.
- **`parseInt`** (`Strings.ParseInt`) skips leading white space, reads an optional sign and the longest run of digits. NaN is `None`.
- **JavaScript arithmetic**: `%` truncates toward zero (`Strings.JsRem`), and `Math.round(a / b)` is the nearest integer with halves rounded up (`Records.RoundQuotient`).
- **Inputs from outside**: the clock, `Math.random` and the notification service's answers are parameters of the operations that use them.

Code and design notes:
- `transitionToEating` has no status guard in the code (`src/stores/timerStore.ts:67-77`), although the design calls it valid only from *fasting*. The model follows the code: the action is allowed from any status, and `Timer.TimerStore.TransitionToEating` keeps `Valid()` only when it starts from a cycle that is under way.
- The design describes an early stop's `actualDuration` as the elapsed time. The code floors it to whole minutes (`src/stores/timerStore.ts:99`), and so does the model.

## Model

| member | source | states |
|---|---|---|
| Timer.GenerateId | src/stores/timerStore.ts:39-41 | the id is the clock's decimal text, a '-' and the random suffix, so it is never empty |
| Timer.FloorMinutes | src/stores/timerStore.ts:99 | the result is the number of whole minutes in the span: `m` minutes fit, `m + 1` do not |
| Timer.ClosingRecord | src/stores/timerStore.ts:92-121 | the record keeps id, plan and start, and ends now. It is completed iff the fast was completed or the status is eating. The target is the whole minutes to the target end (0 without one). An early stop counts elapsed whole minutes; otherwise the actual duration equals the target |
| Timer.EarlyStopFallsShort | src/stores/timerStore.ts:97-111 | stopping while fasting, before the target, gives an uncompleted record whose actual duration is below its target |
| Timer.WithoutId | src/stores/timerStore.ts:130-133 | the filtered list holds exactly the records whose id differs, and is the same list when no record has that id |
| Timer.WithoutIdIsSubMultiset | src/stores/timerStore.ts:132 | deleting only drops records: the kept records form a sub-multiset of the old ones |
| Timer.WithoutIdSplits | src/stores/timerStore.ts:132 | filtering distributes over concatenation, so deleting keeps the order of the other records |
| Timer.TimerStore.constructor | src/stores/timerStore.ts:27-36 | the initial state: idle, all cycle fields empty, no records |
| Timer.TimerStore.Valid | src/stores/timerStore.ts:27-77 | the phase invariant: idle iff no record id is held, the fast is marked completed iff the phase is eating, and an eating start exists iff the phase is eating |
| Timer.TimerStore.StartFasting | src/stores/timerStore.ts:49-64 | fasting from now. The fasting target is `fastingHours` hours later and the eating target `eatingHours` hours after that. A fresh id, not completed, eating start cleared, records untouched, invariant established |
| Timer.TimerStore.TransitionToEating | src/stores/timerStore.ts:67-77 | eating from now, with a target `eatingHours` ahead, marked completed. The fasting fields, the id and the records are untouched |
| Timer.TimerStore.StopTimer | src/stores/timerStore.ts:80-127 | with no start, or a missing or empty id, nothing changes. Otherwise the cycle returns to idle and exactly the closing record is appended. The invariant is kept, and a running cycle always adds one record |
| Timer.TimerStore.DeleteRecord | src/stores/timerStore.ts:130-133 | records become the filtered list, none carries the id, and no other field changes |
| Timer.TimerStore.Reset | src/stores/timerStore.ts:136 | back to the initial state, records emptied |
| Timer.CompletedCycle | src/stores/timerStore.ts:49-127 | start, then transition, then stop gives a completed record whose actual and target durations are both `fastingHours * 60` minutes |
| Timer.StoppedEarly | src/stores/timerStore.ts:49-127 | start then stop before the target gives an uncompleted record of the elapsed whole minutes, below the target |
| Timer.SixteenEightExamples | src/stores/timerStore.ts:96-111 | a completed 16:8 cycle records 960 of 960 minutes; a stop after 5 hours records 300 of 960, not completed |
| Records.OnDay | src/hooks/useFastingRecords.ts:41-51 | a day's bucket holds exactly the records started that day |
| Records.OnDayCounts | src/hooks/useFastingRecords.ts:43-48 | each record appears in its day's bucket as often as in the list, and in no other bucket |
| Records.RecordsByDate | src/hooks/useFastingRecords.ts:41-51 | the grouping's days are exactly the days on which some record started |
| Records.GroupingStep | src/hooks/useFastingRecords.ts:45-48 | one more record extends or opens the bucket of its own day and leaves every other bucket unchanged |
| Records.GroupByDate | src/hooks/useFastingRecords.ts:41-51 | the loop builds exactly the grouping map |
| Records.GetRecordsByDate | src/hooks/useFastingRecords.ts:166-168 | a day missing from the map gives the empty list |
| Records.GetRecordsByDateIsOnDay | src/hooks/useFastingRecords.ts:166-168 | looking a day up gives exactly that day's records, in list order |
| Records.HasCompletedRecord | src/hooks/useFastingRecords.ts:171-174 | holds iff the day's bucket holds a completed record, and then the day has a record |
| Records.HasRecord | src/hooks/useFastingRecords.ts:177-179 | holds iff the day's bucket is not empty |
| Records.GroupingCoversRecords | src/hooks/useFastingRecords.ts:41-51 | every record is in its day's bucket and no bucket is empty |
| Records.HasRecordIffStarted | src/hooks/useFastingRecords.ts:177-179 | `hasRecord` holds iff some record started that day |
| Records.HasCompletedIffCompletedDay | src/hooks/useFastingRecords.ts:171-174 | `hasCompletedRecord` holds iff the day is among the completed days the streaks use, and it implies `hasRecord` |
| Records.CompletedDays | src/hooks/useFastingRecords.ts:60-65 | the completed days are among the started days, and there are at most as many as records |
| Records.CollectCompletedDays | src/hooks/useFastingRecords.ts:60-65 | the loop collects exactly the days with a completed record |
| Records.RunBackIsARun | src/hooks/useFastingRecords.ts:89-97 | counting back from a day gives a run of completed days that ends at a day that is not completed |
| Records.CurrentStreak | src/hooks/useFastingRecords.ts:85-98 | 0 exactly when neither today nor yesterday is completed, and never more than the number of completed days |
| Records.CurrentStreakMeaning | src/hooks/useFastingRecords.ts:85-98 | the streak is 0 iff neither today nor yesterday is completed. Otherwise it is the full run of completed days ending today, or yesterday |
| Records.CountCurrentStreak | src/hooks/useFastingRecords.ts:85-98 | the `while (true)` loop computes the current streak |
| Records.HasMaximum | src/hooks/useFastingRecords.ts:67 | a non-empty set of days has a latest day |
| Records.SortedDesc | src/hooks/useFastingRecords.ts:67 | the completed days, latest first, each once |
| Records.MaxChainBounds | src/hooks/useFastingRecords.ts:101-117 | the longest chain of consecutive entries is at least every chain and is attained |
| Records.ChainIsRun | src/hooks/useFastingRecords.ts:105-110 | a chain of entries one day apart is a run of completed days |
| Records.RunIsChain | src/hooks/useFastingRecords.ts:105-110 | every run of completed days is covered by the chain ending at its first day |
| Records.MaxChainIsLongestRun | src/hooks/useFastingRecords.ts:101-117 | the longest chain is the longest run of completed days |
| Records.LongestStreak | src/hooks/useFastingRecords.ts:101-117 | the `for` loop over the days, latest first, yields the longest run of consecutive completed days |
| Records.CurrentAtMostLongest | src/hooks/useFastingRecords.ts:54-120 | the current streak never exceeds the longest streak |
| Records.CalculateStreaks | src/hooks/useFastingRecords.ts:54-120 | the current streak as defined, the longest run of completed days, and current <= longest. This includes the two early returns for no records and no completed day |
| Records.ThreeDayStreak | src/hooks/useFastingRecords.ts:85-117 | three completed days ending today give a current and a longest streak of 3 |
| Records.CountCompleted | src/hooks/useFastingRecords.ts:125 | at most the number of records, equal to it iff all are completed, 0 iff none is |
| Records.TotalDuration | src/hooks/useFastingRecords.ts:127 | the sum of non-negative durations is non-negative, and all-zero durations sum to 0 |
| Records.RoundQuotient | src/hooks/useFastingRecords.ts:126-128 | `Math.round(a / b)`: the nearest integer to `a / b`, halves rounded up |
| Records.SuccessRate | src/hooks/useFastingRecords.ts:126 | 0 with no records, otherwise the rounded percentage. Always between 0 and 100: 0 when nothing is completed, 100 when everything is |
| Records.PercentageBounds | src/hooks/useFastingRecords.ts:126 | a rounded percentage of a part of a whole lies in 0..100, with both extremes exact |
| Records.AverageDuration | src/hooks/useFastingRecords.ts:127-128 | 0 with no records, otherwise the sum divided by the count, rounded |
| Records.Summarize | src/hooks/useFastingRecords.ts:151-162 | counts, success rate and average of a list of records. The rate is in 0..100, and an empty list gives all zeros |
| Records.DurationBounds | src/hooks/useFastingRecords.ts:127 | the total duration lies between count times the least and count times the greatest duration |
| Records.AverageWithinBounds | src/hooks/useFastingRecords.ts:128 | the rounded average duration lies between the least and the greatest duration |
| Records.RoundedMeanBounds | src/hooks/useFastingRecords.ts:128 | a rounded mean of values in [lo, hi] lies in [lo, hi] |
| Records.SuccessRateExtremes | src/hooks/useFastingRecords.ts:126 | all records completed gives 100%; none completed gives 0% |
| Records.Stats | src/hooks/useFastingRecords.ts:123-138 | total, completed, rate, average and both streaks as specified; the current streak is at most the longest |
| Records.InWindow | src/hooks/useFastingRecords.ts:146-149 | the records kept are exactly those started within the bounds |
| Records.WeeksStartOnSunday | src/utils/date.ts:35-41 | the week index changes between two consecutive days exactly when the later day is a Sunday |
| Records.InWeekOf | src/hooks/useFastingRecords.ts:141-149 | the records kept are exactly those started in the same Sunday-to-Saturday week as now |
| Records.WindowIsWeek | src/hooks/useFastingRecords.ts:143-148 | an instant lies between this week's start and end iff it falls in the same week as now |
| Records.InWindowIsInWeek | src/hooks/useFastingRecords.ts:143-149 | filtering by the week bounds keeps the same records as filtering by week |
| Records.ThisWeekStats | src/hooks/useFastingRecords.ts:141-163 | this week's summary is the summary of exactly the records of the current week |
| Notifications.PlannedNotices | src/hooks/useNotification.ts:157-173 | at most two notices, all in the future. The fasting-end notice is planned iff enabled and still ahead, and the same holds for the reminder |
| Notifications.FastingEndAt | src/hooks/useNotification.ts:158-163 | the end of the fast is not before its start when the fasting hours are not negative, and after it when they are positive |
| Notifications.FastingEndInWholeHours | src/hooks/useNotification.ts:158-163 | the end of the fast lies exactly the plan's fasting hours, a whole number of hours, after the start |
| Notifications.EatingReminderAt | src/hooks/useNotification.ts:158-170 | the reminder plus 30 minutes is the end of the fast plus the eating hours; with an eating window of an hour or more it comes after the end of the fast |
| Notifications.ReminderFollowsFastingEnd | src/hooks/useNotification.ts:158-170 | the reminder comes after the fasting end and 30 minutes before the eating window closes |
| Notifications.SixteenEightNotices | src/hooks/useNotification.ts:158-170 | a 16:8 plan started now plans the notice at +16 h and the reminder at +23 h 30 min |
| Notifications.Notices | src/hooks/useNotification.ts:120-131 | the key and instant of each pending notification, in order |
| Notifications.IdsFrom | src/hooks/useNotification.ts:162-173 | the fasting-end id, when recorded, is the first one handed out; the reminder id, when recorded, is the next one after it, or the first when no fasting-end notice was scheduled |
| Notifications.ScheduledFrom | src/hooks/useNotification.ts:144-176 | at most two notifications are left pending, and when both are, the fasting-end notice comes first |
| Notifications.ScheduledFromMeaning | src/hooks/useNotification.ts:144-176 | after scheduling, the pending notifications are exactly the planned ones under fresh consecutive ids. An id is recorded for a key iff that notice was scheduled, and each recorded id names a pending notice of that key |
| Notifications.NotificationHook.constructor | src/hooks/useNotification.ts:58-61 | nothing pending, both recorded ids null |
| Notifications.NotificationHook.GetPermissionStatus | src/hooks/useNotification.ts:80-87 | undetermined without the module, otherwise the service's status |
| Notifications.NotificationHook.RequestPermissions | src/hooks/useNotification.ts:64-77 | undetermined without the module; granted stays granted without asking; otherwise the user's answer. Afterwards it agrees with getPermissionStatus |
| Notifications.NotificationHook.CancelAllNotifications | src/hooks/useNotification.ts:90-100 | with the module, nothing is pending and both ids are cleared; without it nothing changes |
| Notifications.NotificationHook.ScheduleNotification | src/hooks/useNotification.ts:103-136 | no module or a past instant: null, and nothing changes. Otherwise a fresh id, and exactly that notification with its key's title and body is appended |
| Notifications.AppendKeepsConsistent | src/hooks/useNotification.ts:103-136 | appending a notification under the next unused id to consistent bookkeeping leaves it consistent, so `ScheduleNotification` keeps the hook's invariant |
| Notifications.NotificationHook.ScheduleNotifications | src/hooks/useNotification.ts:144-176 | without the module nothing changes. Otherwise all earlier notices are cancelled, exactly the planned notices are pending under fresh ids, and the ids are recorded per key. The invariant holds afterwards |
| Notifications.NotificationHook.GetScheduledIds | src/hooks/useNotification.ts:179-181 | the recorded ids, each naming a pending notification of its own key |
| Settings.AsSettings | src/types/index.ts:23-26 | the two toggles the notification hook reads, taken from the stored four |
| Settings.Flag | src/stores/settingsStore.ts:60 | reading the toggles at a key gives the fasting-end toggle for the fasting-end key and the reminder toggle for the reminder key |
| Settings.WithFlag | src/stores/settingsStore.ts:58-61 | sets exactly the named toggle and leaves every other one as it was |
| Settings.WithFlagLaws | src/stores/settingsStore.ts:58-61 | writing back a toggle's own value changes nothing; a second write to the same toggle overrides the first |
| Settings.WithFlagCommutes | src/stores/settingsStore.ts:58-61 | writes to two different toggles commute |
| Settings.SettingsStore.constructor | src/stores/settingsStore.ts:25-36 | the initial settings |
| Settings.SettingsStore.SetSelectedPlan | src/stores/settingsStore.ts:44 | the selected plan is the given id, and nothing else changes |
| Settings.SettingsStore.SetCustomHours | src/stores/settingsStore.ts:47-52 | the custom plan is selected with both hours stored; that id names no preset |
| Settings.SettingsStore.SetEatingStartTime | src/stores/settingsStore.ts:55 | the eating start time is the given text, and nothing else changes |
| Settings.SettingsStore.SetNotification | src/stores/settingsStore.ts:58-61 | the named toggle takes the value and the other toggles keep theirs |
| Settings.SettingsStore.ResetSettings | src/stores/settingsStore.ts:64 | back to the initial settings |
| Settings.InitialSettingsScheduleBoth | src/stores/settingsStore.ts:30-35 | initially both the fasting-end notice and the reminder are enabled |
| Plans.FindPlan | src/constants/plans.ts:52-54 | the first plan with the id, or none iff no plan has it |
| Plans.GetPlanById | src/constants/plans.ts:52-54 | a found plan is a preset with that id; nothing is found iff no preset has it |
| Plans.PresetsSplitTheDay | src/constants/plans.ts:7-49 | every preset has positive fasting and eating hours summing to 24 |
| Plans.PresetIdsDistinct | src/constants/plans.ts:7-49 | no two presets share an id |
| Plans.GetPlanByIdFindsEachPreset | src/constants/plans.ts:52-54 | every preset is found by its own id |
| Plans.CustomIsNotAPreset | src/constants/plans.ts:52-54 | the custom id finds no preset |
| Plans.DefaultPlanIsSixteenEight | src/constants/plans.ts:4 | the default id names the 16:8 preset |
| Strings.NatToStringRoundTrip | src/utils/time.ts:11-13 | the decimal text of a number reads back as that number |
| Strings.Pad2RoundTrip | src/utils/date.ts:24-25 | zero-padding to two digits keeps the value |
| Strings.Pad2Injective | src/utils/date.ts:24-25 | different numbers pad to different texts |
| Strings.JsRem | src/utils/time.ts:20 | JavaScript's `%`: the remainder truncated toward zero, with the sign of the dividend |
| Strings.ParseInt | src/components/records/DayDetail.tsx:34 | `parseInt` is NaN exactly when no digit follows the optional white space and sign |
| Strings.ParseIntOfDigits | src/components/settings/PlanSelector.tsx:38-39 | a run of digits followed by a non-digit parses as the number of those digits |
| Strings.ParseIntOfIntToString | src/components/settings/PlanSelector.tsx:27-32 | the decimal text of any integer parses back to it |
| Strings.ParseIntOfShort | src/components/settings/PlanSelector.tsx:125 | a text of at most two characters parses to a number in -9..99 |
| Strings.SplitConcat | src/components/records/DayDetail.tsx:33 | splitting a piece without the separator, then the separator, then a rest gives that piece before the pieces of the rest |
| TimeFormat.FormatDuration | src/utils/time.ts:2-3 | no time left reads 00:00:00 |
| TimeFormat.FormatDurationFields | src/utils/time.ts:2-15 | three colon-separated digit fields: minutes and seconds are two digits below 60, and the fields add up to the whole seconds |
| TimeFormat.FormatDurationRoundTrip | src/utils/time.ts:2-15 | reading the clock text back gives the whole seconds remaining |
| TimeFormat.FormatMinutes | src/utils/time.ts:18-24 | for a non-negative count the label holds a space iff it has both hours and minutes (an hour or more, not a whole hour), and ends in the hour unit iff the count is a whole number of hours, at least one |
| TimeFormat.FormatMinutesRoundTrip | src/utils/time.ts:18-24 | reading the label back gives the minute count |
| TimeFormat.DisplayHour | src/utils/time.ts:32 | the 12-hour clock hour is in 1..12 and agrees with the hour modulo 12 |
| TimeFormat.Period | src/utils/time.ts:31 | 오전 exactly before noon, 오후 from noon on |
| TimeFormat.FormatTime | src/utils/time.ts:27-35 | the label starts with 오전 iff the hour is before noon, is at least six characters, and has the ':' before the two minute digits |
| TimeFormat.FormatTimeRoundTrip | src/utils/time.ts:27-35 | the label of an hour of the day and a minute count reads back as both |
| TimeFormat.GetRemainingMs | src/utils/time.ts:38-42 | never negative, zero iff the target is reached, otherwise exactly the time to the target |
| TimeFormat.GetProgress | src/utils/time.ts:45-55 | in 0..1: 0 for an empty span or before the start, 1 at or after the end, strictly between them in between |
| TimeFormat.ProgressMonotone | src/utils/time.ts:45-55 | progress never decreases as time passes |
| TimeFormat.ProgressFullIffNothingRemains | src/utils/time.ts:38-55 | progress is full exactly when no time remains |
| DateUtils.JsYear | src/utils/date.ts:2-3 | `new Date` reads years 0..99 as 1900..1999 |
| DateUtils.MonthLength | src/utils/date.ts:7-14 | 28 to 31 days; February has 29 iff the year is a leap year |
| DateUtils.GetDaysInMonth | src/utils/date.ts:7-14 | between 28 and 31 days |
| DateUtils.FebruaryFollowsLeapRule | src/utils/date.ts:7-14 | February of a year has 29 days iff the year is a Gregorian leap year |
| DateUtils.MonthsFillTheYear | src/utils/date.ts:7-14 | the twelve months add up to 365 or 366 days |
| DateUtils.NextMonthFollows | src/utils/date.ts:2-19 | next month starts on the weekday this month starts on, moved on by this month's length |
| DateUtils.NewYear2024WasMonday | src/utils/date.ts:16-19 | 1 January 2024 falls on a Monday |
| DateUtils.GetFirstDayOfWeek | src/utils/date.ts:16-19 | a weekday 0..6, Sunday first |
| DateUtils.FormatDateKey | src/utils/date.ts:22-27 | the key never holds a 'T', and for a year of at most four digits it is the year's digits, '-', two digits, '-', two digits |
| DateUtils.ParseDateKey | src/utils/date.ts:22-27 | a text without '-' reads as nothing; a key that reads gives a non-negative year and day and a month from -1 on |
| DateUtils.DateKeyFields | src/utils/date.ts:22-27 | the key splits on '-' into the year, the two-digit month and the two-digit day |
| DateUtils.DateKeyRoundTrip | src/utils/date.ts:22-27 | parsing a key gives back year, month and day |
| DateUtils.DateKeyIdentifiesDay | src/utils/date.ts:22-27 | two dates have the same key iff they are the same day |
| DateUtils.GetDateKeyFromISO | src/utils/date.ts:30-32 | the part of the text before the first 'T', or all of it when there is none |
| DateUtils.DateKeyOfISO | src/utils/date.ts:30-32 | the date part of a date-and-clock text is its date key |
| DateUtils.GetWeekStart | src/utils/date.ts:35-41 | the midnight of the Sunday that starts the date's week |
| DateUtils.GetWeekEnd | src/utils/date.ts:44-50 | the last millisecond of the Saturday that ends the date's week |
| DateUtils.DayOfWeek | src/utils/date.ts:37 | a weekday 0..6, and moving back that many days from the instant's day lands on a Sunday |
| DateUtils.IsSameDay | src/utils/date.ts:53-59 | for two calendar dates: same year, month and day iff their instants fall on the same day |
| DateUtils.DayNumberIdentifiesDate | src/utils/date.ts:53-59 | two calendar dates have the same day number iff they agree in year, month and day |
| DateUtils.DayOfInstant | src/utils/date.ts:53-59 | the day part of a calendar date's instant is its day number, whatever the time of day |
| DateUtils.EarlierYearEarlierDay | src/utils/date.ts:53-59 | every day of an earlier year comes before every day of a later one |
| DateUtils.EarlierMonthEarlierDay | src/utils/date.ts:53-59 | within a year, every day of an earlier month comes before every day of a later one |
| DateUtils.DayWithinYear | src/utils/date.ts:53-59 | a calendar date's day number lies between the first day of its year and the first day of the next |
| DateUtils.GetMonthName | src/utils/date.ts:67-69 | the name reads back as the month's number counted from 1 |
| DateUtils.HourOf | src/utils/time.ts:29 | the hour of the day is in 0..23 |
| DateUtils.MinuteOf | src/utils/time.ts:30 | the minute of the hour is in 0..59 |
| Calendar.BuildCalendarDays | src/components/records/Calendar.tsx:41-55 | one blank cell per weekday before the 1st, then the days 1..n in order, and nothing else |
| Calendar.CellColumnIsWeekday | src/components/records/Calendar.tsx:45-55 | the column of a day's cell in a 7-wide grid is its weekday |
| Calendar.DayHighlight | src/components/records/Calendar.tsx:77-83 | the selected day is highlighted as selected; otherwise today is highlighted as today |
| Calendar.DayDot | src/components/records/Calendar.tsx:98-104 | a dot appears iff the day has a record and is not selected; it is green iff a record of that day is completed |
| Calendar.DotFollowsRecords | src/components/records/Calendar.tsx:63-104 | the dot appears iff a record started that day, and it is green iff that day is a completed day |
| DayDetail.ShowParsed | src/components/records/DayDetail.tsx:33-34 | a field that parses shows its number; a missing or unparsable field shows NaN |
| DayDetail.FormatDateDisplay | src/components/records/DayDetail.tsx:32-35 | the heading always ends in 일, and a key without '-' shows NaN월 NaN일 |
| DayDetail.DateDisplayOfKey | src/components/records/DayDetail.tsx:32-35 | a date key is shown as "M월 D일" with the month counted from 1 and no leading zeros |
| DayDetail.FormatTimeOf | src/components/records/DayDetail.tsx:22-29 | the time label reads back as the instant's hour and minute and is never the "-" placeholder |
| DayDetail.Row | src/components/records/DayDetail.tsx:97-119 | the badge reads 목표 달성 iff the record is completed. The end shows "-" iff there is no end time. Start, end and duration read back as the record's values |
| DayDetail.DurationReadsBack | src/components/records/DayDetail.tsx:13-19 | a non-negative duration label reads back as its minutes |
| DayDetail.DayDetailView | src/components/records/DayDetail.tsx:38-55 | the empty message iff there are no records; otherwise the heading and exactly one row per record, in order |
| TimePicker.HourLabel | src/components/settings/TimePicker.tsx:14-18 | a whole-hour label is the 12-hour clock time of that hour with ":00" minutes |
| TimePicker.OptionAt | src/components/settings/TimePicker.tsx:13-19 | an option's value is five characters ending in ":00" |
| TimePicker.OptionCaptionReadsBack | src/components/settings/TimePicker.tsx:14-18 | the label of entry `h` reads back as hour `h`, minute 0 |
| TimePicker.TimeOptions | src/components/settings/TimePicker.tsx:13-20 | exactly 24 options, entry `h` being the option of hour `h` |
| TimePicker.OptionValueReadsBack | src/components/settings/TimePicker.tsx:17 | the value of entry `h` parses back as `h` |
| TimePicker.OptionsDistinctAndOrdered | src/components/settings/TimePicker.tsx:13-17 | option values are pairwise distinct and in increasing hour order |
| TimePicker.OptionLabel | src/components/settings/TimePicker.tsx:14-18 | a label starts with 오전 iff the hour is before noon, and shows `h % 12` with 0 shown as 12 |
| TimePicker.GetDisplayTime | src/components/settings/TimePicker.tsx:27-32 | the shown time always ends in ":00". An unparsable hour shows 오후 12:00, and a parsed hour of the day reads back from the label |
| TimePicker.DisplayTimeOfHour | src/components/settings/TimePicker.tsx:27-32 | a stored "HH:MM" shows the label of its hour, whatever the minutes |
| TimePicker.DisplayTimeOfOption | src/components/settings/TimePicker.tsx:13-32 | every option's value is displayed as exactly that option's label |
| PlanSelector.InitialCustomText | src/components/settings/PlanSelector.tsx:27-32 | with no stored hours the field starts with the default text; otherwise its text parses back as the stored hours |
| PlanSelector.InitialTexts | src/components/settings/PlanSelector.tsx:27-32 | the fields start as "16" and "8" when no custom hours are stored, and otherwise read back as the stored hours |
| PlanSelector.DefaultTextsParse | src/components/settings/PlanSelector.tsx:27-39 | the default texts read as the default 16 and 8 hours |
| PlanSelector.OrFallback | src/components/settings/PlanSelector.tsx:38-39 | JavaScript's logical-or fallback on a parsed number: NaN and 0 give the fallback, any other number is kept |
| PlanSelector.ApplyCustomAsWritten | src/components/settings/PlanSelector.tsx:37-41 | the hours handed on are never 0, and lie in -9..99 for inputs of at most two characters |
| PlanSelector.ParsedBound | src/components/settings/PlanSelector.tsx:125 | a field of at most two characters reads as a number in -9..99 |
| PlanSelector.AsWrittenKeepsNonZero | src/components/settings/PlanSelector.tsx:38-39 | any non-zero number typed in, negative ones included, is handed on unchanged as the custom hours |
| PlanSelector.AsWrittenPassesNegativeHours | src/components/settings/PlanSelector.tsx:38-40 | the text "-5" is handed on as -5 fasting hours |
| PlanSelector.PositiveOr | src/components/settings/PlanSelector.tsx:38-39 | the result is always positive: the parsed number when positive, otherwise the fallback |
| PlanSelector.ApplyCustom | src/components/settings/PlanSelector.tsx:37-41 | both hours handed on are positive, and at most 99 for inputs of at most two characters |
| PlanSelector.ApplyCustomAgreesOnNonNegative | src/components/settings/PlanSelector.tsx:38-39 | the corrected rule and the code agree on every input that does not read as a negative number |
| PlanSelector.LeadingDigitsAreRead | src/components/settings/PlanSelector.tsx:38-39 | a field that starts with digits is read as the number those digits denote |
| PlanSelector.EmptyOrZeroFallsBack | src/components/settings/PlanSelector.tsx:38-39 | an empty, non-numeric or zero field falls back to 16 and 8 hours, in both rules |
| PlanSelector.InitialTextsApplyBack | src/components/settings/PlanSelector.tsx:27-41 | applying the fields as first filled gives back the stored positive hours, or 16 and 8 when none are stored |
| PlanSelector.HandleApplyCustom | src/components/settings/PlanSelector.tsx:37-41 | selects the custom plan and stores the hours as the code reads them: never 0, within -9..99 for fields of at most two characters, and negative when a field reads as a negative number |
| PlanSelector.HandleApplyCustomCorrected | src/components/settings/PlanSelector.tsx:37-41 | the handler with the corrected rule: selects the custom plan with hours that are always positive |

## Left out

- Persistence: the zustand `persist` middleware and AsyncStorage are not modelled (`src/stores/timerStore.ts:138-141`, `src/stores/settingsStore.ts:66-69`). Only the in-memory state is.
- The expo-notifications module is a service inside `Notifications.NotificationHook`:
  - whether it loaded is a constructor argument;
  - the user's permission answer is a parameter;
  - scheduling hands out consecutive identifiers.
- Not modelled in the notification hook:
  - the handler registration (`src/hooks/useNotification.ts:29-47`), `async`/`await`, and delivery;
  - the service removing notifications that have fired.
- Timer.TimerStore.StartFasting: one `now` is used for both the record id and the start time, although the code reads the clock twice (`src/stores/timerStore.ts:40` and `:50`).
- Notifications.NotificationHook.ScheduleNotifications: one `now` is used for both notices, although the code reads the clock once per notice.
- `Date.now()`, `new Date()` and `Math.random()` are parameters (`now`, `randomSuffix`). Instants are integers, and ISO strings are not parsed.
- Local time zones and daylight saving time are not modelled: the local zone is taken to be UTC. This also leaves out the mismatch between the UTC day keys of records and the local "today" key of the streak count (`src/hooks/useFastingRecords.ts:44,63,77-82`).
- Records.CountCurrentStreak and Records.LongestStreak work on day numbers. The string sort of `YYYY-MM-DD` keys is modelled as a numeric sort of day numbers, which agrees with it for four-digit years.
- Floating point: `Math.round` and the progress division are computed exactly, over integers and `real`, so rounding error is not modelled.
- Strings.ParseInt: only ASCII white space is skipped before the number, not the other Unicode white space `parseInt` skips. It reads only decimal digits and has no value for `Infinity`.
- `src/hooks/useTimer.ts` is not part of this model: it polls with `setInterval` and refers to store members that do not exist.
- Screen rendering, modal visibility and the text-field state of the components are not modelled. The `isToday` flag of a calendar cell is a parameter of `Calendar.DayHighlight`, because it reads the clock.
- The `formatMinutes` copies in `src/components/records/DayDetail.tsx:13-19` and `src/components/records/WeeklyStats.tsx:17-23` have the same code as `src/utils/time.ts:18-24`. They are modelled once, as `TimeFormat.FormatMinutes`.
- `formatTimeFromISO` has the same code as `formatTime`, and `DayDetail.FormatTimeOf` reuses `TimeFormat.FormatTime`.
- Timer.TimerStore.TransitionToEating: keeps `Valid()` only when it is called during a cycle, because the code does not guard against a call from *idle*.

## Findings

| source | as written | input that shows it | evidently intended | confidence | as-written member | corrected member |
|---|---|---|---|---|---|---|
| src/components/settings/PlanSelector.tsx:38-39 | `parseInt(text, 10)` with a logical-or fallback to 16 (8 for eating) falls back only for NaN and 0, so a negative number is handed on as the custom hours | the fasting field holding "-5" (pasted, or typed on a hardware keyboard; the number pad has no minus key) stores -5 fasting hours | every non-positive value falls back to the default, so the custom hours are always positive | low (not executed) | PlanSelector.AsWrittenPassesNegativeHours | PlanSelector.HandleApplyCustomCorrected |
