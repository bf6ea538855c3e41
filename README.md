# HealthyPlant care-schedule core in Dafny

This project models the domain core of the HealthyPlant gRPC server: the
plant-care calendar that a user's plants follow, and the immutable user
snapshot the server keeps up to date. A plant has four care actions
(watering, misting, feeding, repotting), each with a start date and a
periodicity. From these the server

- computes the next due date of each action (`DateService.GetNextDate`,
  with its day/month/year shortcut and its step loop),
- lists the occurrence dates inside a window (`PlantHelper.CalculateDateRange`),
- back-fills the history entries missing up to today
  (`UserDomain.AddMissingHistory`),
- builds the agenda: today's recorded entries plus the projected groups of
  the next days, ordered by date (`UserDomain.NowAndBeyond`,
  `HistoryGroupDomain.GetHistoryGroups`,
  `HistoryGroupDomain.GetHistoryGroupForUserToday`),
- splits a plant's history into the recent part and the part older than
  one month (`PlantDomain.GetRecentHistory`, `PlantDomain.GetOldHistory`),
- adds, edits and removes plants, marks entries done and archives old
  history (`UserDomain.AddNewPlant`, `UpdatePlant`, `RemovePlant`,
  `UpdateHistory`, `TryGetOldHistory`),
- and, at the gRPC edge, validates plant commands, converts between domain,
  wire and storage enums, shifts protobuf timestamps and keeps the
  per-request logging context (`DiagnosticContext`).

Dates are whole days counted from 1970-01-01 (`Calendar.Date`); the civil
calendar (leap years, month lengths, the day clamp of `AddMonths`) is
written out, and `Calendar.CheckedAddMonths` reproduces the range error
that `DateTime.AddMonths` raises before year 1. Exceptions and `null`
become `Result` and `Option` values. The wall clock and the id generator
are parameters: "today" is passed in, and new entry ids come from a
supplier `ids: nat -> string` and a counter. The periodicity enum keeps
the source's integer codes (`EachMonth` is 101 and `EachYear` is 1001; a
code below 101 counts days, a code below 1001 months, any other years), so
the day, month and year tiers are the same comparisons as in the source.

Behaviours of the source that the model keeps as they are:

- the month tier of `ShiftPlantStartToFromDate` jumps by the difference in
  years only (its month terms cancel), and the year tier ignores the number
  of years in the code. In the day tier the next date is the first step of
  the schedule at or after the reference date (`DateService.NextDateDayTier`).
  In the month tier the year jump can overshoot instead: from November 15,
  with a reference date of January 10 the next year, the next monthly date is
  November 15 of that year, although January 15 is a monthly step at or
  after the reference (`DateService.MonthlyJumpOvershoots`). The model keeps
  this behaviour;
- back-fill restarts one day after the latest existing entry of an action,
  not one period after it, and appends the new entries to both `History`
  and `OldHistory`;
- an unknown stored periodicity code is read as `ThreeWeeks`;
- the agenda's projected window runs from tomorrow to today + 14 days,
  end excluded.

Constants.cs is not part of this model: the command validators take the
maximum name and notes lengths as parameters.

## Model

| member | source | states |
|---|---|---|
| Periodicities.NamedAdvances | server/HealthyPlant.Domain/Plants/PlantDomain.cs:431-448 | every named periodicity code except `None` moves a date strictly forward, and `None` does not |
| Calendar.ToCivil | server/HealthyPlant.Domain/Infrastructure/DateService.cs:47 | the civil date of a day number is a valid year/month/day that converts back to the same day number and lies in the month found by `MonthIndexOf` |
| Calendar.CivilRoundTrip | server/HealthyPlant.Domain/Infrastructure/DateService.cs:47 | converting a valid civil date to a day number and back gives the same civil date |
| Calendar.AddMonths | server/HealthyPlant.Domain/Infrastructure/DateService.cs:18 | adding n months lands in the month n months later |
| Calendar.AddDays | server/HealthyPlant.Domain/Users/UserDomain.cs:101-102 | `AddDays` on a whole-day date adds to the day number; no contract of its own |
| Calendar.AddYears | server/HealthyPlant.Domain/Infrastructure/DateService.cs:22 | `AddYears` moves the year and clamps February 29; no contract of its own, stated by `AddYearsIsTwelveMonths` |
| Calendar.AddMonthsDay | server/HealthyPlant.Domain/Infrastructure/DateService.cs:18 | after adding months the day of the month is the original day, clamped to the length of the target month |
| Calendar.AddMonthsDirection | server/HealthyPlant.Domain/Infrastructure/DateService.cs:18 | adding a positive number of months moves forward, zero changes nothing, and a negative number moves back |
| Calendar.AddYearsIsTwelveMonths | server/HealthyPlant.Domain/Infrastructure/DateService.cs:22 | adding n years equals adding 12n months |
| Calendar.CheckedAddMonths | server/HealthyPlant.Domain/Plants/PlantDomain.cs:213 | the month shift succeeds exactly when the result lies in years 1..9999 and then equals `AddMonths`; otherwise it fails with ArgumentOutOfRangeException for "months" |
| Calendar.DefaultDateIsYearOne | server/HealthyPlant.Domain/Infrastructure/DateService.cs:59 | the default date is 0001-01-01 |
| Calendar.CompareDates | server/HealthyPlant.Domain/History/HistoryGroupDomain.cs:291 | the comparison is -1, 0 or 1 exactly when the first date is earlier, equal or later |
| DateService.CeilDiv | server/HealthyPlant.Domain/Infrastructure/DateService.cs:37 | the rounded-up quotient q is the least whole number with q * b >= a (for positive b) |
| DateService.ShiftDateToPeriodicity | server/HealthyPlant.Domain/Infrastructure/DateService.cs:8-26 | a day-tier code adds that many days, a month-tier code lands (code % 100) months later, a year-tier code adds 12 * (code % 1000) months, `None` leaves the date unchanged, and the result is later than the input exactly when the code advances |
| DateService.ShiftPlantStartToFromDate | server/HealthyPlant.Domain/Infrastructure/DateService.cs:28-30 | when the reference date is not after the plant start, or the periodicity is `None`, the plant start is returned unchanged |
| DateService.AdvanceToStart | server/HealthyPlant.Domain/Infrastructure/DateService.cs:70-73 | the step loop ends at or after both the reference date and its starting date, and does not move a date that is already at or after the reference |
| DateService.GetNextDate | server/HealthyPlant.Domain/Infrastructure/DateService.cs:57-76 | the loop computes the next-date function: the epoch sentinel when inactive, otherwise the shortcut followed by whole steps |
| DateService.NextDate | server/HealthyPlant.Domain/Infrastructure/DateService.cs:57-76 | the value of `GetNextDate`; no contract of its own, stated by `NextDateInactive`, `NextDateAtOrAfterStart` and `NextDateDayTier`, and computed by `GetNextDate` |
| DateService.NextDateInactive | server/HealthyPlant.Domain/Infrastructure/DateService.cs:59-62 | a `None` periodicity or a default/epoch date gives the Unix epoch sentinel |
| DateService.NextDateAtOrAfterStart | server/HealthyPlant.Domain/Infrastructure/DateService.cs:64-75 | an active schedule's next date is at or after the reference date, and is the plant start itself when that is not before the reference |
| DateService.DayTierShortcut | server/HealthyPlant.Domain/Infrastructure/DateService.cs:34-44 | for a day code N and a plant start before the reference, the shortcut is the plant start plus k*N with k = ceil(elapsed days / N) >= 1, and lies in [reference, reference + N) |
| DateService.NextDateDayTier | server/HealthyPlant.Domain/Infrastructure/DateService.cs:34-75 | in the day tier the next date is plant start + k*N, at or after the reference, with the step before it (when k > 0) before the reference |
| DateService.MonthTierShortcut | server/HealthyPlant.Domain/Infrastructure/DateService.cs:47 | the month-tier shortcut adds 12 months per year of difference between the reference year and the start year, whatever the month |
| DateService.YearTierShortcut | server/HealthyPlant.Domain/Infrastructure/DateService.cs:51 | the year-tier shortcut adds the difference in years, whatever the code's number of years |
| DateService.TenDaysExample | server/HealthyPlant.Tests/Services/DateServiceTests.cs:16-24 | with TenDays, a start on December 1 and a reference on December 16 of the same year, the shortcut gives December 21 |
| DateService.TenDaysJump | server/HealthyPlant.Domain/Infrastructure/DateService.cs:36-43 | with TenDays and a reference 15 days after the start, the shortcut lands 20 days after the start |
| DateService.MonthlyJumpOvershoots | server/HealthyPlant.Domain/Infrastructure/DateService.cs:47 | from November 15 with a reference on January 10 of the next year, the monthly next date is November 15 of that year, while two monthly steps already reach January 15, which is at or after the reference and earlier |
| DateService.MonthlyStep | server/HealthyPlant.Domain/Infrastructure/DateService.cs:18 | one monthly step keeps a day of month up to 28 and moves to the next month |
| PlantHelper.DateRange | server/HealthyPlant.Domain/Plants/PlantHelper.cs:17-33 | the range is empty for `None` or an empty window, and otherwise starts at the start date |
| PlantHelper.CalculateDateRange | server/HealthyPlant.Domain/Plants/PlantHelper.cs:17-33 | the loop lists exactly the range function's dates |
| PlantHelper.DateRangeBounds | server/HealthyPlant.Domain/Plants/PlantHelper.cs:13-15 | every listed date lies in [start, end): the start is included and the end excluded |
| PlantHelper.DateRangeSteps | server/HealthyPlant.Domain/Plants/PlantHelper.cs:25-31 | each listed date is one periodicity step after the previous, strictly later, and one step after the last reaches the end |
| PlantHelper.DateRangeLatest | server/HealthyPlant.Domain/Plants/PlantHelper.cs:25-31 | every listed date is at most the last one |
| PlantHelper.DateRangeLast | server/HealthyPlant.Domain/Plants/PlantHelper.cs:25-31 | every listed date lies between the start and the last listed date |
| PlantHelper.DailyRangeLast | server/HealthyPlant.Domain/Plants/PlantHelper.cs:25-31 | a daily range over a non-empty window has one date per day and ends on the day before the end |
| PlantHelper.DateRangeDays | server/HealthyPlant.Domain/Plants/PlantHelper.cs:25-31 | for a day periodicity p the range has ceil((end - start) / p) dates (none for an empty window), and its i-th date is start + i·p |
| PlantHelper.DateRangeDaysMember | server/HealthyPlant.Domain/Plants/PlantHelper.cs:25-31 | for a day periodicity p a date is listed exactly when it lies in [start, end) a whole multiple of p days after start |
| Strings.Trim | server/HealthyPlant.Domain/History/HistoryDomain.cs:38 | the trimmed text has no white space at either end |
| Strings.IsWhiteSpace | server/HealthyPlant.Domain/History/HistoryDomain.cs:38 | the characters `Char.IsWhiteSpace` accepts, which `Trim` removes; no contract of its own, used by `TrimStartSpec` and `TrimEndSpec` |
| Strings.TrimStart | server/HealthyPlant.Domain/History/HistoryDomain.cs:38 | drops leading white space; no contract of its own, stated by `TrimStartSpec` |
| Strings.TrimStartSpec | server/HealthyPlant.Domain/History/HistoryDomain.cs:38 | what is dropped at the start is white space, and what is kept is a suffix that is empty or starts with another character |
| Strings.TrimEnd | server/HealthyPlant.Domain/History/HistoryDomain.cs:38 | drops trailing white space; no contract of its own, stated by `TrimEndSpec` |
| Strings.TrimEndSpec | server/HealthyPlant.Domain/History/HistoryDomain.cs:38 | what is dropped at the end is white space, and what is kept is a prefix that is empty or ends with another character |
| Strings.TrimCutsWhiteSpace | server/HealthyPlant.Domain/History/HistoryDomain.cs:38 | the trimmed text is a slice of the input with only white space cut before and after it |
| Strings.TrimIdempotent | server/HealthyPlant.Domain/History/HistoryDomain.cs:38 | trimming twice equals trimming once |
| Strings.TrimTrimmed | server/HealthyPlant.Domain/History/HistoryDomain.cs:38 | text already without white space at its ends is unchanged |
| Strings.TrimEmpty | server/HealthyPlant.Grpc/Commands/CreateData/CreatePlantCommand.cs:98 | the trimmed text is empty exactly when the input is all white space |
| Strings.OrEmpty | server/HealthyPlant.Domain/History/HistoryDomain.cs:25-32 | a missing text becomes the empty text and a present one is kept |
| Strings.IsNullOrEmpty | server/HealthyPlant.Grpc/Infrastructure/Map/MapHelper.cs:8-9 | `string.IsNullOrEmpty`: null or the empty text; no contract of its own, stated through `MapHelper.GetOrThrowIfEmpty` |
| Strings.Utf16Length | server/HealthyPlant.Grpc/Commands/CreateData/CreatePlantCommand.cs:104-114 | `String.Length` in UTF-16 code units lies between the number of characters and twice that number |
| Strings.Utf16LengthAppend | server/HealthyPlant.Grpc/Commands/CreateData/CreatePlantCommand.cs:104-114 | the length of a concatenation is the sum of the lengths |
| Strings.Utf16LengthBmp | server/HealthyPlant.Grpc/Commands/CreateData/CreatePlantCommand.cs:104-114 | the length equals the number of characters exactly when no character lies outside the Basic Multilingual Plane |
| Strings.EmojiLength | server/HealthyPlant.Grpc/Commands/CreateData/CreatePlantCommand.cs:104 | one emoji character (U+1F335) has length 2 |
| Strings.FoldCase | server/HealthyPlant.Grpc/Infrastructure/AppLog/DiagnosticContext.cs:21 | case folding keeps the length and upper-cases each ASCII letter, keeping every other character |
| Strings.FoldCaseIdempotent | server/HealthyPlant.Grpc/Infrastructure/AppLog/DiagnosticContext.cs:21 | folding twice equals folding once |
| Strings.FoldCaseIgnoresCase | server/HealthyPlant.Grpc/Infrastructure/AppLog/DiagnosticContext.cs:21 | texts that differ only in the case of ASCII letters fold to the same key |
| HistoryDomain.History.WithId | server/HealthyPlant.Domain/History/HistoryDomain.cs:35-39 | the id is stored trimmed and every other field is unchanged |
| HistoryDomain.History.WithUserId | server/HealthyPlant.Domain/History/HistoryDomain.cs:41-45 | the user id is stored trimmed and every other field is unchanged |
| HistoryDomain.History.WithPlantIconRef | server/HealthyPlant.Domain/History/HistoryDomain.cs:53-57 | the icon reference is stored trimmed and every other field is unchanged |
| HistoryDomain.History.WithPlantName | server/HealthyPlant.Domain/History/HistoryDomain.cs:59-63 | the plant name is stored trimmed and every other field is unchanged |
| HistoryDomain.History.WithPlantId | server/HealthyPlant.Domain/History/HistoryDomain.cs:65-69 | the plant id is stored trimmed and every other field is unchanged |
| HistoryDomain.History.Tagged | server/HealthyPlant.Domain/History/HistoryGroupDomain.cs:244 | re-tagging sets the trimmed icon, plant id and name and changes nothing else |
| HistoryDomain.History.TaggedBuilt | server/HealthyPlant.Domain/History/HistoryGroupDomain.cs:244 | re-tagging is the chain of the three trimming setters used by the `with` expression |
| HistoryDomain.DayOfSeconds | server/HealthyPlant.Domain/History/HistoryDomain.cs:26 | the day of a Unix-seconds value is the day whose 86400-second span contains it |
| HistoryDomain.NewHistory | server/HealthyPlant.Domain/History/HistoryDomain.cs:15-33 | the entry's day contains the given seconds, done flag and type are copied, and missing texts become empty |
| HistoryDomain.NewHistoryWholeDay | server/HealthyPlant.Domain/History/HistoryDomain.cs:26 | seconds at the start of a day give that day |
| HistoryDomain.HistoryEqualsEquivalence | server/HealthyPlant.Domain/History/HistoryDomain.cs:134-139 | entry equality is reflexive, symmetric and transitive |
| HistoryDomain.HistoryEquals | server/HealthyPlant.Domain/History/HistoryDomain.cs:134-139 | equality on id, date, done flag and type; no contract of its own, stated by `HistoryEqualsEquivalence` and `HistoryEqualsIgnoresMetadata` |
| HistoryDomain.HistoryEqualsIgnoresMetadata | server/HealthyPlant.Domain/History/HistoryDomain.cs:134-139 | entry equality ignores user id, icon, plant name and plant id, so re-tagging keeps an entry equal |
| HistoryDomain.OfType | server/HealthyPlant.Domain/History/HistoryGroupDomain.cs:258-261 | the selection holds exactly the entries of the given type |
| HistoryDomain.DescCompareIsDescKey | server/HealthyPlant.Domain/History/HistoryDomain.cs:148-158 | the comparer puts later dates first and orders exactly as the descending key does |
| HistoryDomain.DateSortDescCompare | server/HealthyPlant.Domain/History/HistoryDomain.cs:148-158 | the comparer answers -1, 0 or 1; its order is stated by `DescCompareIsDescKey`, `DescCompareNullsLast` and `DescCompareOrder` |
| HistoryDomain.DescCompareNullsLast | server/HealthyPlant.Domain/History/HistoryDomain.cs:148-158 | a null entry sorts after any entry, two nulls compare equal, and an entry equals itself |
| HistoryDomain.DescCompareOrder | server/HealthyPlant.Domain/History/HistoryDomain.cs:148-158 | the comparer is antisymmetric and transitive |
| Sorting.SortBySpec | server/HealthyPlant.Domain/Plants/PlantDomain.cs:98 | sorting gives a permutation of the input, sorted by the key |
| Sorting.SortBySorted | server/HealthyPlant.Domain/Plants/PlantDomain.cs:98 | an input already sorted by the key is unchanged |
| ImmutableLists.Replace | server/HealthyPlant.Domain/Users/UserDomain.cs:350 | replacing fails with ArgumentException for "oldValue" exactly when no element equals the old value, and otherwise keeps the length |
| ImmutableLists.IndexOf | server/HealthyPlant.Domain/Users/UserDomain.cs:350 | the index found holds an equal element and no earlier one is equal, and none is found exactly when no element is equal |
| ImmutableLists.ReplaceAt | server/HealthyPlant.Domain/Users/UserDomain.cs:350 | the first element equal to the old value is the one replaced |
| ImmutableLists.Find | server/HealthyPlant.Domain/Users/UserDomain.cs:443 | the index found is the first element that matches, and none is found only when nothing matches |
| ImmutableLists.RemoveAll | server/HealthyPlant.Domain/Users/UserDomain.cs:308 | the result holds exactly the elements that do not match |
| ImmutableLists.RemoveAllNone | server/HealthyPlant.Domain/Users/UserDomain.cs:308 | removing when nothing matches changes nothing |
| ImmutableLists.RemoveAllIdempotent | server/HealthyPlant.Domain/Users/UserDomain.cs:308 | removing twice equals removing once |
| PlantDomain.FiltersMembership | server/HealthyPlant.Domain/Plants/PlantDomain.cs:212-218 | the recent list holds exactly the entries on or after the cutoff and the old list exactly those before it |
| PlantDomain.Recent | server/HealthyPlant.Domain/Plants/PlantDomain.cs:212-214 | the entries on or after the cutoff, in order; no contract of its own, stated by `FiltersMembership`, `RecentOldPartition` and `FiltersAppend` |
| PlantDomain.Old | server/HealthyPlant.Domain/Plants/PlantDomain.cs:216-218 | the entries before the cutoff, in order; no contract of its own, stated by `FiltersMembership`, `RecentOldPartition` and `FiltersAppend` |
| PlantDomain.RecentOldPartition | server/HealthyPlant.Domain/Plants/PlantDomain.cs:212-218 | recent and old together are a permutation of the history, and no entry is in both |
| PlantDomain.FiltersAppend | server/HealthyPlant.Domain/Plants/PlantDomain.cs:212-218 | filtering a concatenation is the concatenation of the filtered parts |
| PlantDomain.RecentKeepsAll | server/HealthyPlant.Domain/Plants/PlantDomain.cs:212-218 | a history all on or after the cutoff is its own recent part |
| PlantDomain.OldKeepsAll | server/HealthyPlant.Domain/Plants/PlantDomain.cs:212-218 | a history all before the cutoff is its own old part |
| PlantDomain.SplitHistory | server/HealthyPlant.Domain/Plants/PlantDomain.cs:212-218 | an empty history splits into two empty lists; a non-empty one fails exactly when today minus one month leaves years 1..9999, and otherwise splits at that cutoff |
| PlantDomain.FiltersSettle | server/HealthyPlant.Domain/Plants/PlantDomain.cs:96-106 | filtering again keeps each part, and the recent part has no old entries and the old part no recent ones |
| PlantDomain.Plant.SortedHistory | server/HealthyPlant.Domain/Plants/PlantDomain.cs:98 | the history getter returns a permutation of the stored entries, latest first |
| PlantDomain.Plant.WithHistory | server/HealthyPlant.Domain/Plants/PlantDomain.cs:96-100 | the history setter keeps exactly the given entries on or after the cutoff, keeps the plant's invariant, and changes no other field |
| PlantDomain.Plant.WithOldHistory | server/HealthyPlant.Domain/Plants/PlantDomain.cs:102-106 | the old-history setter keeps exactly the given entries before the cutoff, keeps the invariant, and changes no other field |
| PlantDomain.Plant.WithId | server/HealthyPlant.Domain/Plants/PlantDomain.cs:56-60 | the id is stored trimmed and nothing else changes |
| PlantDomain.Plant.WithName | server/HealthyPlant.Domain/Plants/PlantDomain.cs:62-66 | the name is stored trimmed and nothing else changes |
| PlantDomain.Plant.WithNotes | server/HealthyPlant.Domain/Plants/PlantDomain.cs:68-72 | the notes are stored trimmed and nothing else changes |
| PlantDomain.Plant.WithIconRef | server/HealthyPlant.Domain/Plants/PlantDomain.cs:74-78 | the icon reference is stored trimmed and nothing else changes |
| PlantDomain.HistoryAddRange | server/HealthyPlant.Domain/Plants/PlantDomain.cs:99 | adding entries to the history adds exactly their recent ones to the stored entries |
| PlantDomain.OldHistoryAddRange | server/HealthyPlant.Domain/Plants/PlantDomain.cs:105 | adding entries to the old history appends exactly their old ones |
| PlantDomain.TodayIsRecent | server/HealthyPlant.Domain/Plants/PlantDomain.cs:217 | an entry dated today or later is recent |
| PlantDomain.NextDue | server/HealthyPlant.Domain/Plants/PlantDomain.cs:110-144 | an action's next date is the epoch sentinel when inactive; otherwise it is at or after today, and is the start itself when the start is not before today |
| PlantDomain.Plant.Next | server/HealthyPlant.Domain/Plants/PlantDomain.cs:110-144 | an action's next date from the plant's today; no contract of its own, stated by `NextDue` |
| PlantDomain.PlantEqualsEquivalence | server/HealthyPlant.Domain/Plants/PlantDomain.cs:186-191 | plant equality is reflexive, symmetric and transitive |
| PlantDomain.PlantEquals | server/HealthyPlant.Domain/Plants/PlantDomain.cs:186-191 | equality on the texts, the four schedules and the history lists; no contract of its own, stated by `PlantEqualsEquivalence` and `PlantEqualsIgnores` |
| PlantDomain.PlantEqualsIgnores | server/HealthyPlant.Domain/Plants/PlantDomain.cs:186-191 | plant equality ignores the old history and the stored today |
| PlantDomain.MapIntToPeriodicity | server/HealthyPlant.Domain/Plants/PlantDomain.cs:411-428 | a named non-zero code reads as itself, any other value as ThreeWeeks, and the result always advances |
| PlantDomain.ResolveToday | server/HealthyPlant.Domain/Plants/PlantDomain.cs:53 | a default today is replaced by the UTC today and any other is kept |
| PlantDomain.ScheduleOfSeconds | server/HealthyPlant.Domain/Plants/PlantDomain.cs:43-50 | a schedule's start is the day containing the given seconds and its periodicity is the stored code |
| PlantDomain.BasePlant | server/HealthyPlant.Domain/Plants/PlantDomain.cs:39-50 | missing texts become empty, each schedule comes from its seconds and code, and the histories start empty |
| PlantDomain.NewPlant | server/HealthyPlant.Domain/Plants/PlantDomain.cs:23-54 | the corrected constructor fails only when a non-empty history meets a today whose previous month is out of range; on success the plant is valid, its today is the resolved one, its recent and old parts are a permutation of the given history, and every other field is the base plant's |
| PlantDomain.NewPlantSucceeds | server/HealthyPlant.Domain/Plants/PlantDomain.cs:23-54 | for a resolved today in years 2..9999 the corrected constructor succeeds |
| PlantDomain.NewPlantAsWrittenThrows | server/HealthyPlant.Domain/Plants/PlantDomain.cs:51-53 | as written, any non-empty history makes the constructor throw ArgumentOutOfRangeException for "months" |
| PlantDomain.NewPlantAsWritten | server/HealthyPlant.Domain/Plants/PlantDomain.cs:51-53 | the constructor as written: a plant it builds carries the resolved today; its failure is stated by `NewPlantAsWrittenThrows` and its empty-history case by `NewPlantAsWrittenWithoutHistory` |
| PlantDomain.NewPlantAsWrittenWithoutHistory | server/HealthyPlant.Domain/Plants/PlantDomain.cs:51-53 | as written, a missing or empty history gives the same plant as the corrected constructor |
| PlantDomain.SplitAtDefaultThrows | server/HealthyPlant.Domain/Plants/PlantDomain.cs:213 | splitting a non-empty history at the default date throws ArgumentOutOfRangeException for "months" |
| PlantDomain.DefaultYearOneCannotGoBack | server/HealthyPlant.Domain/Plants/PlantDomain.cs:213 | one month before the default date is out of range |
| PlantDomain.JanuaryCannotGoBack | server/HealthyPlant.Domain/Plants/PlantDomain.cs:213 | one month before any January in year 1 or earlier is out of range |
| HistoryGroupDomain.NewHistoryGroup | server/HealthyPlant.Domain/History/HistoryGroupDomain.cs:12-24 | a default date becomes the Unix epoch, other dates are kept, and missing lists become empty |
| HistoryGroupDomain.HistoryGroup.WithAppended | server/HealthyPlant.Domain/History/HistoryGroupDomain.cs:50-61 | appending adds the entry at the end of that action's list and changes neither the other lists nor the date |
| HistoryGroupDomain.SingleGroup | server/HealthyPlant.Domain/History/HistoryGroupDomain.cs:63-77 | a new group has the date and the single entry in the action's list, and the other lists are empty |
| HistoryGroupDomain.Occurrence | server/HealthyPlant.Domain/History/HistoryGroupDomain.cs:53-60 | a projected entry has the date, the type, not done, no id or user, and the plant's trimmed id, name and icon |
| HistoryGroupDomain.OccurrenceBuilt | server/HealthyPlant.Domain/History/HistoryGroupDomain.cs:53-60 | a projected entry is built with the same trimming setters as the source |
| HistoryGroupDomain.AddOccurrence | server/HealthyPlant.Domain/History/HistoryGroupDomain.cs:50-77 | the date-only lookup appends to the existing group for the date, or adds a new group with the single entry |
| HistoryGroupDomain.AddOccurrenceGrows | server/HealthyPlant.Domain/History/HistoryGroupDomain.cs:50-61 | adding an occurrence removes no group and no entry |
| HistoryGroupDomain.AddOccurrenceHolds | server/HealthyPlant.Domain/History/HistoryGroupDomain.cs:50-77 | after adding, the date has a group holding the entry |
| HistoryGroupDomain.EmitAction | server/HealthyPlant.Domain/History/HistoryGroupDomain.cs:37-82 | one action block's loop adds exactly the action's occurrences |
| HistoryGroupDomain.GetHistoryGroups | server/HealthyPlant.Domain/History/HistoryGroupDomain.cs:32-234 | the four action blocks over all plants build exactly the groups of the group function |
| HistoryGroupDomain.OccurrencesFromNextDate | server/HealthyPlant.Domain/History/HistoryGroupDomain.cs:37-48 | an inactive schedule has no occurrences; otherwise they are the date range from the next date to the end |
| HistoryGroupDomain.OccurrencesBounds | server/HealthyPlant.Domain/History/HistoryGroupDomain.cs:42-48 | every occurrence lies in [start, end) |
| HistoryGroupDomain.GroupsOfWellFormed | server/HealthyPlant.Domain/History/HistoryGroupDomain.cs:42-77 | every group is filed under its own date inside the window, and every entry in it is a not-done projection of one of the plants on that date and of the list's type |
| HistoryGroupDomain.GroupsOf | server/HealthyPlant.Domain/History/HistoryGroupDomain.cs:32-234 | the groups the four action blocks build, plant by plant; no contract of its own, stated by `GroupsOfWellFormed`, `GroupsOfDates` and `GroupsOfComplete` |
| HistoryGroupDomain.GroupsOfDates | server/HealthyPlant.Domain/History/HistoryGroupDomain.cs:269-284 | each group is filed under its own date, so no two groups share a date |
| HistoryGroupDomain.GroupsOfComplete | server/HealthyPlant.Domain/History/HistoryGroupDomain.cs:35-81 | every occurrence of every plant's action is in the group for its date, in that action's list |
| HistoryGroupDomain.InDateOrder | server/HealthyPlant.Domain/History/HistoryGroupDomain.cs:233 | every group whose date is in the range is listed |
| HistoryGroupDomain.InDateOrderAscending | server/HealthyPlant.Domain/History/HistoryGroupDomain.cs:233 | the listing is strictly ascending by date |
| HistoryGroupDomain.InDateOrderBounds | server/HealthyPlant.Domain/History/HistoryGroupDomain.cs:233 | every listed group's date lies in the range |
| HistoryGroupDomain.Matching | server/HealthyPlant.Domain/History/HistoryGroupDomain.cs:240-246 | every selected entry is on the date and carries the plant's tag |
| HistoryGroupDomain.AppendMatching | server/HealthyPlant.Domain/History/HistoryGroupDomain.cs:240-246 | the inner loop appends exactly the plant's matching entries |
| HistoryGroupDomain.MatchingEmpty | server/HealthyPlant.Domain/History/HistoryGroupDomain.cs:242 | nothing is selected exactly when no entry is on the date |
| HistoryGroupDomain.MatchingComplete | server/HealthyPlant.Domain/History/HistoryGroupDomain.cs:242-245 | every entry on the date is selected, re-tagged with the plant |
| HistoryGroupDomain.TodayEntries | server/HealthyPlant.Domain/History/HistoryGroupDomain.cs:238-247 | every collected entry is on the date |
| HistoryGroupDomain.TodayEntriesTagged | server/HealthyPlant.Domain/History/HistoryGroupDomain.cs:244 | every collected entry carries one of the plants' tags |
| HistoryGroupDomain.TodayEntriesEmpty | server/HealthyPlant.Domain/History/HistoryGroupDomain.cs:249-253 | nothing is collected exactly when no plant has a recorded entry on the date |
| HistoryGroupDomain.TodayEntriesComplete | server/HealthyPlant.Domain/History/HistoryGroupDomain.cs:239-246 | every recorded entry on the date is collected, re-tagged with its plant |
| HistoryGroupDomain.TodayGroupNone | server/HealthyPlant.Domain/History/HistoryGroupDomain.cs:249-253 | there is no today group exactly when no plant has a recorded entry on the date |
| HistoryGroupDomain.TodayGroup | server/HealthyPlant.Domain/History/HistoryGroupDomain.cs:236-262 | the group of the recorded entries on a date, or none; no contract of its own, stated by `TodayGroupNone`, `TodayGroupContents` and `TodayGroupComplete` |
| HistoryGroupDomain.TodayGroupContents | server/HealthyPlant.Domain/History/HistoryGroupDomain.cs:255-262 | the today group is dated today and each action's list holds exactly the collected entries of that type |
| HistoryGroupDomain.TodayGroupComplete | server/HealthyPlant.Domain/History/HistoryGroupDomain.cs:239-262 | every recorded entry on the date appears, re-tagged, in its action's list of the today group |
| HistoryGroupDomain.GetHistoryGroupForUserToday | server/HealthyPlant.Domain/History/HistoryGroupDomain.cs:236-263 | the loops compute exactly the today-group function |
| HistoryGroupDomain.DateEquals | server/HealthyPlant.Domain/History/HistoryGroupDomain.cs:269-284 | two groups are equal exactly when their dates are, and a null only equals a null |
| HistoryGroupDomain.DateCompare | server/HealthyPlant.Domain/History/HistoryGroupDomain.cs:286-295 | the comparer answers -1, 0 or 1; its order is stated by `DateCompareOrder` and `DateCompareNulls` |
| HistoryGroupDomain.DateEqualsEquivalence | server/HealthyPlant.Domain/History/HistoryGroupDomain.cs:269-284 | date equality of groups is reflexive, symmetric and transitive |
| HistoryGroupDomain.DateCompareOrder | server/HealthyPlant.Domain/History/HistoryGroupDomain.cs:286-295 | the ascending comparer orders groups as their dates do and is antisymmetric |
| HistoryGroupDomain.DateCompareNulls | server/HealthyPlant.Domain/History/HistoryGroupDomain.cs:286-295 | a null group compares as 1 against a group in either order, and two nulls compare equal |
| UserDomain.TrimOrEmpty | server/HealthyPlant.Domain/Users/UserDomain.cs:43-50 | a missing text becomes empty, a present one is trimmed |
| UserDomain.NewUser | server/HealthyPlant.Domain/Users/UserDomain.cs:31-53 | texts are trimmed or empty, missing lists become empty, missing times become zero, and a missing notification time becomes the default instant |
| UserDomain.NewUserRoundTrip | server/HealthyPlant.Domain/Users/UserDomain.cs:31-53 | constructing from an existing user's (trimmed) fields gives that user back |
| UserDomain.RemovePlant | server/HealthyPlant.Domain/Users/UserDomain.cs:306-309 | the plants kept are exactly those with another id, and nothing else changes |
| UserDomain.RemovePlantSettles | server/HealthyPlant.Domain/Users/UserDomain.cs:306-309 | removing an absent id changes nothing, and removing twice equals removing once |
| UserDomain.TodayEntry | server/HealthyPlant.Domain/Users/UserDomain.cs:251-257 | a start-day entry has the supplied id, the type and today's date, and is not done |
| UserDomain.TodayEntryBuilt | server/HealthyPlant.Domain/Users/UserDomain.cs:251-257 | a start-day entry is built with the trimming id setter |
| UserDomain.NewEntriesDated | server/HealthyPlant.Domain/Users/UserDomain.cs:251-257 | one entry per action, all dated today |
| UserDomain.StartingOnMembers | server/HealthyPlant.Domain/Users/UserDomain.cs:247-289 | an action gets a start-day entry exactly when its start is today |
| UserDomain.AddEntryKeeps | server/HealthyPlant.Domain/Users/UserDomain.cs:251 | adding a recent entry adds exactly it and keeps the plant's invariant |
| UserDomain.AddEntryIf | server/HealthyPlant.Domain/Users/UserDomain.cs:247-259 | one action step adds the entry only when the action starts today and takes the next id |
| UserDomain.AddNewPlant | server/HealthyPlant.Domain/Users/UserDomain.cs:244-304 | the new plant is appended with a fresh id and one not-done entry for each action starting today; the other plants and fields are unchanged, and one id is used per entry plus one for the plant |
| UserDomain.AddNewPlantCounts | server/HealthyPlant.Domain/Users/UserDomain.cs:244-304 | the new plant stays valid and its entries are the old ones plus the start-day entries |
| UserDomain.Edited | server/HealthyPlant.Domain/Users/UserDomain.cs:449-462 | the edit takes trimmed texts and the schedules from the request and keeps the stored id, histories and today |
| UserDomain.EditedAgain | server/HealthyPlant.Domain/Users/UserDomain.cs:449-462 | editing again with the same request after adding entries changes nothing |
| UserDomain.MissingTodayMembers | server/HealthyPlant.Domain/Users/UserDomain.cs:464 | an action lacks an entry exactly when its start is today and no recorded entry of that type is on today |
| UserDomain.NewEntriesTypes | server/HealthyPlant.Domain/Users/UserDomain.cs:468-474 | the entries added have the missing actions' types, in order |
| UserDomain.AddEntryIfMissing | server/HealthyPlant.Domain/Users/UserDomain.cs:464-476 | one action check adds an entry exactly when that action is due today and has none |
| UserDomain.EditPlant | server/HealthyPlant.Domain/Users/UserDomain.cs:449-518 | the edited plant gains one today-entry for each action that starts today and has none, using one id each |
| UserDomain.UpdatePlant | server/HealthyPlant.Domain/Users/UserDomain.cs:441-521 | an unknown id changes nothing and uses no id; otherwise only the first plant with the id is replaced, by its edit plus the missing today-entries |
| UserDomain.CoveredAction | server/HealthyPlant.Domain/Users/UserDomain.cs:464-518 | after the update no action is still due today without an entry |
| UserDomain.EditPlantSettles | server/HealthyPlant.Domain/Users/UserDomain.cs:464-518 | after the update the plant stays valid and nothing is missing today, so updating again adds nothing |
| UserDomain.IndexOfId | server/HealthyPlant.Domain/Users/UserDomain.cs:429-431 | the index found is the first entry with the id, and none is found only when no entry has it |
| UserDomain.FindEntry | server/HealthyPlant.Domain/Users/UserDomain.cs:429-435 | the search loop finds exactly that index |
| UserDomain.UpdatedStepFound | server/HealthyPlant.Domain/Users/UserDomain.cs:431-434 | visiting a plant that holds the id replaces, in the user's ORIGINAL plant list, the first plant equal to it by its copy with that entry's done flag set |
| UserDomain.UpdatedStepSkipped | server/HealthyPlant.Domain/Users/UserDomain.cs:429-436 | a plant not holding the id leaves the user unchanged |
| UserDomain.MarkIn | server/HealthyPlant.Domain/Users/UserDomain.cs:433 | the marked plant replaces the first plant equal to the original one |
| UserDomain.MarkedOnlyIsDone | server/HealthyPlant.Domain/Users/UserDomain.cs:433 | marking changes only the done flag of that one entry |
| UserDomain.FirstEqualPlant | server/HealthyPlant.Domain/Users/UserDomain.cs:433 | with distinct plant ids, the first plant equal to a plant is that plant itself |
| UserDomain.VisitPlant | server/HealthyPlant.Domain/Users/UserDomain.cs:428-436 | one step of the outer loop extends the update to one more plant |
| UserDomain.UpdateHistory | server/HealthyPlant.Domain/Users/UserDomain.cs:425-439 | the loop computes the update over all plants |
| UserDomain.UpdateHistoryUnknown | server/HealthyPlant.Domain/Users/UserDomain.cs:425-439 | an id held by no entry leaves the user unchanged |
| UserDomain.UpdateHistoryReplacesLastHolder | server/HealthyPlant.Domain/Users/UserDomain.cs:427-433 | with distinct plant ids, the result is the original user with the last plant holding the id marked; an earlier holder's change is overwritten |
| UserDomain.StampedBuilt | server/HealthyPlant.Domain/Users/UserDomain.cs:531 | an archived entry is tagged with the plant and the user through the trimming setters |
| UserDomain.StampedKeeps | server/HealthyPlant.Domain/Users/UserDomain.cs:531 | an archived entry stays equal to the original and carries the trimmed plant and user metadata |
| UserDomain.StampAllAt | server/HealthyPlant.Domain/Users/UserDomain.cs:528-532 | stamping keeps the length and stamps each entry in place |
| UserDomain.AppendOld | server/HealthyPlant.Domain/Users/UserDomain.cs:528-532 | one plant's stamped old entries are appended, and found becomes true when it has any |
| UserDomain.OldOfPlantsEmpty | server/HealthyPlant.Domain/Users/UserDomain.cs:523-535 | there is no old history exactly when no plant has old entries |
| UserDomain.OldOfPlantsFrom | server/HealthyPlant.Domain/Users/UserDomain.cs:527-532 | every archived entry is a stamped old entry of some plant |
| UserDomain.TryGetOldHistory | server/HealthyPlant.Domain/Users/UserDomain.cs:523-535 | the result is every plant's stamped old history in plant order, and found says whether any plant had old entries |
| UserBackfill.LatestDateBounds | server/HealthyPlant.Domain/Users/UserDomain.cs:328 | the latest date is the date of some entry and no entry is later |
| UserBackfill.LatestDateOf | server/HealthyPlant.Domain/Users/UserDomain.cs:328 | an entry no other entry is later than gives the latest date |
| UserBackfill.LatestStart | server/HealthyPlant.Domain/Users/UserDomain.cs:328-331 | with recorded entries of a type, back-fill restarts one day after the latest |
| UserBackfill.LastStart | server/HealthyPlant.Domain/Users/UserDomain.cs:328-331 | the restart date of an action; no contract of its own, stated by `LatestStart`, `EarlierEntries` and `RefillStartsAfterLatest` |
| UserBackfill.Due | server/HealthyPlant.Domain/Users/UserDomain.cs:333 | the guard of an action block; no contract of its own, stated by `MissingIdle` and `MissingSpec` |
| UserBackfill.EarlierEntries | server/HealthyPlant.Domain/Users/UserDomain.cs:328-331 | every recorded entry of the type is before the restart date |
| UserBackfill.RefillStartsAfterLatest | server/HealthyPlant.Domain/Users/UserDomain.cs:328-331 | after a back-fill the next restart date is one day after the last entry added |
| UserBackfill.PeriodicRefillAddsMore | server/HealthyPlant.Domain/Users/UserDomain.cs:328-331 | when the last added entry is before today and more is due, re-running adds entries from the day after it: the fill is not idempotent for multi-day periodicities |
| UserBackfill.MissingEntriesSpec | server/HealthyPlant.Domain/Users/UserDomain.cs:335-345 | one not-done entry per date, with the next ids in order, the type, and the plant's and user's metadata |
| UserBackfill.MissingSpec | server/HealthyPlant.Domain/Users/UserDomain.cs:333-345 | nothing is generated unless due; otherwise the entries are those for the date range from the restart date up to and including today |
| UserBackfill.MissingLatest | server/HealthyPlant.Domain/Users/UserDomain.cs:333-345 | generated entries form a block of the type starting at the restart date, which is not after today |
| UserBackfill.MissingIdle | server/HealthyPlant.Domain/Users/UserDomain.cs:333-347 | when not due, or the restart is after today, or the periodicity is None, nothing is generated and the user is unchanged |
| UserBackfill.BackfilledBuilt | server/HealthyPlant.Domain/Users/UserDomain.cs:349 | the back-filled plant adds the entries to both the history and the old history |
| UserBackfill.BackfilledAppends | server/HealthyPlant.Domain/Users/UserDomain.cs:347-352 | the back-filled plant keeps its other fields, adds the recent new entries and appends the old ones |
| UserBackfill.FillAction | server/HealthyPlant.Domain/Users/UserDomain.cs:347-352 | a successful action step keeps the user's other fields and the plant count, and uses one id per entry |
| UserBackfill.FillActionAppends | server/HealthyPlant.Domain/Users/UserDomain.cs:347-352 | a successful action step only adds the new entries to the plant's histories |
| UserBackfill.FillActionReplaced | server/HealthyPlant.Domain/Users/UserDomain.cs:349-350 | with new entries, the step replaces the current plant in the user's list and advances the ids |
| UserBackfill.DailyRefillAddsNothing | server/HealthyPlant.Tests/Commands/GetDataCommandTests.cs:131-155 | for a daily action, a second back-fill on the same day generates nothing |
| UserBackfill.DailyLatest | server/HealthyPlant.Domain/Users/UserDomain.cs:335 | a daily back-fill ends on today |
| UserBackfill.FillPlant | server/HealthyPlant.Domain/Users/UserDomain.cs:325-419 | back-filling one plant keeps the user's other fields and the plant count |
| UserBackfill.BackfillPlant | server/HealthyPlant.Domain/Users/UserDomain.cs:325-419 | the four action blocks for one plant compute the plant step and leave later plants untouched |
| UserBackfill.FillUpTo | server/HealthyPlant.Domain/Users/UserDomain.cs:322-423 | back-filling keeps the user's other fields and the plant count |
| UserBackfill.AddMissingHistory | server/HealthyPlant.Domain/Users/UserDomain.cs:322-423 | the loop over plants computes the fill function and succeeds |
| UserBackfill.FillUpToStep | server/HealthyPlant.Domain/Users/UserDomain.cs:325-420 | the fill over one more plant is the fill so far followed by that plant's step |
| UserBackfill.BackfillAction | server/HealthyPlant.Domain/Users/UserDomain.cs:333-353 | one action block computes the action step and leaves later plants untouched |
| UserBackfill.IsTodayAnyHistory | server/HealthyPlant.Domain/Users/UserDomain.cs:113-118 | the answer is true exactly when, after back-fill, some plant has a recorded entry on today |
| UserAgenda.NowAndBeyond | server/HealthyPlant.Domain/Users/UserDomain.cs:99-111 | the method computes the agenda function |
| UserAgenda.Agenda | server/HealthyPlant.Domain/Users/UserDomain.cs:99-111 | the agenda; no contract of its own, stated by `AgendaSorted`, `AgendaShape`, `AgendaToday` and `AgendaComplete`, and computed by `NowAndBeyond` |
| UserAgenda.AgendaSorted | server/HealthyPlant.Domain/Users/UserDomain.cs:107-110 | the agenda is sorted ascending by date and is a permutation of the today group (when present) and the future groups |
| UserAgenda.FutureFacts | server/HealthyPlant.Domain/Users/UserDomain.cs:101-103 | the future groups are ascending and dated from tomorrow up to today + 14, exclusive |
| UserAgenda.AgendaShape | server/HealthyPlant.Domain/Users/UserDomain.cs:104-110 | the agenda is the today group, when present, followed by the future groups |
| UserAgenda.AgendaToday | server/HealthyPlant.Domain/Users/UserDomain.cs:99-111 | the agenda starts with a group dated today exactly when some plant has a recorded entry today, that group is the today group, and every later group lies in the 13-day window |
| UserAgenda.AgendaComplete | server/HealthyPlant.Domain/Users/UserDomain.cs:101-110 | every future group of the window is in the agenda |
| DateTimeExtensions.ToOffset | server/Infrastructure/DateTimeExtensions/DateTimeExtensions.cs:7-8 | succeeds exactly for an offset of whole minutes within ±14 hours, and then keeps the instant under the new offset; otherwise fails with `ArgumentException` for "offset" when not whole minutes, else with `ArgumentOutOfRangeException` for "offset" |
| DateTimeExtensions.ToOffsetUtcDate | server/Infrastructure/DateTimeExtensions/DateTimeExtensions.cs:7 | fails exactly as `ToOffset` does; otherwise the result has offset zero and is midnight |
| DateTimeExtensions.UtcDateIdempotent | server/Infrastructure/DateTimeExtensions/DateTimeExtensions.cs:7 | taking the UTC date again with offset zero changes nothing |
| DateTimeExtensions.ToOffsetUtcTime | server/Infrastructure/DateTimeExtensions/DateTimeExtensions.cs:8 | fails exactly as `ToOffset` does; otherwise the result has offset zero and the wall-clock time of the instant at the given offset |
| DateTimeExtensions.WholeDayOffsetThrows | server/Infrastructure/DateTimeExtensions/DateTimeExtensions.cs:7-8 | a time zone of one whole day (what "1.00:00:00" parses to) makes both functions throw `ArgumentOutOfRangeException` for "offset" |
| DateTimeExtensions.SecondsOffsetThrows | server/Infrastructure/DateTimeExtensions/DateTimeExtensions.cs:7-8 | a time zone of 30 seconds makes both functions throw `ArgumentException` for "offset" |
| DateTimeExtensions.EdgeOffsetsAccepted | server/Infrastructure/DateTimeExtensions/DateTimeExtensions.cs:7-8 | +14:00, -14:00 and +05:30 are accepted |
| DateTimeExtensions.DateStartsTime | server/Infrastructure/DateTimeExtensions/DateTimeExtensions.cs:7-8 | the two functions fail alike; on success the UTC date is the start of the day holding the UTC time |
| DateTimeExtensions.OffsetIrrelevant | server/Infrastructure/DateTimeExtensions/DateTimeExtensions.cs:7-8 | both results depend on the instant only, not on the input's own offset |
| DateTimeExtensions.SameDay | server/Infrastructure/DateTimeExtensions/DateTimeExtensions.cs:7-8 | on success, date and time fall on the same day number, and the date is that day's midnight |
| Timestamps.Wrap | server/HealthyPlant.Grpc/Helpers/ProtobufExtensions.cs:14 | wrapping gives the 64-bit value congruent to the input modulo 2^64 |
| Timestamps.WrapFits | server/HealthyPlant.Grpc/Helpers/ProtobufExtensions.cs:14 | a value that fits is unchanged |
| Timestamps.WrapAdd | server/HealthyPlant.Grpc/Helpers/ProtobufExtensions.cs:14 | wrapping an intermediate sum does not change the wrapped total |
| Timestamps.AddDays | server/HealthyPlant.Grpc/Helpers/ProtobufExtensions.cs:11-16 | the copy's seconds are the wrapped sum of the seconds and 86400 per day, and its nanos are kept |
| Timestamps.AddDaysTwice | server/HealthyPlant.Grpc/Helpers/ProtobufExtensions.cs:11-16 | adding a days then b days equals adding a + b days |
| Timestamps.AddSeconds | server/HealthyPlant.Grpc/Helpers/ProtobufExtensions.cs:19-24 | the copy's seconds are the wrapped sum, and its nanos are kept |
| Timestamps.AddExact | server/HealthyPlant.Grpc/Helpers/ProtobufExtensions.cs:11-24 | without overflow the sums are exact |
| Timestamps.AddDaysIsAddSeconds | server/HealthyPlant.Grpc/Helpers/ProtobufExtensions.cs:8-24 | adding days equals adding 86400 seconds per day |
| MapHelper.GetOrThrowIfEmpty | server/HealthyPlant.Grpc/Infrastructure/Map/MapHelper.cs:8-9 | a null or empty text fails, and any other is returned as is |
| MapHelper.GetOrThrowIfEmptyKeeps | server/HealthyPlant.Grpc/Infrastructure/Map/MapHelper.cs:8-9 | the empty text throws ArgumentException with an empty message, and other texts pass |
| MapHelper.ToDateTime | server/HealthyPlant.Grpc/Infrastructure/Map/MapHelper.cs:12 | conversion fails exactly for a timestamp outside the DateTime range or with invalid nanos, and otherwise gives ticks within the DateTime range |
| MapHelper.ToDateTimeMonotone | server/HealthyPlant.Grpc/Infrastructure/Map/MapHelper.cs:12 | later timestamps give later ticks, at tick resolution |
| MapHelper.GetOrNullIfDefaultSpec | server/HealthyPlant.Grpc/Infrastructure/Map/MapHelper.cs:11-12 | a missing or default timestamp gives null, a valid one its ticks, and an invalid one InvalidOperationException |
| MapHelper.GetOrNullIfDefault | server/HealthyPlant.Grpc/Infrastructure/Map/MapHelper.cs:11-12 | null for a missing or default timestamp, else its conversion; no contract of its own, stated by `GetOrNullIfDefaultSpec` |
| MappingConfig.HistoryTypeToHistoryTypeDb | server/HealthyPlant.Grpc/Infrastructure/Map/MappingConfig.cs:42-49 | an unknown wire type fails with ArgumentOutOfRangeException for "type" |
| MappingConfig.HistoryTypeDbToHistoryType | server/HealthyPlant.Grpc/Infrastructure/Map/MappingConfig.cs:51-58 | an unknown stored type fails with ArgumentOutOfRangeException for "type" |
| MappingConfig.HistoryTypeRoundTrip | server/HealthyPlant.Grpc/Infrastructure/Map/MappingConfig.cs:42-58 | the two type mappings succeed exactly on the four actions and are inverse to each other |
| MappingConfig.PeriodicityToWire | server/HealthyPlant.Grpc/Infrastructure/Map/MappingConfig.cs:148-166 | an unnamed code fails with ArgumentOutOfRangeException for "periodicity" |
| MappingConfig.PeriodicityFromWire | server/HealthyPlant.Grpc/Infrastructure/Map/MappingConfig.cs:168-186 | an unknown wire value fails with ArgumentOutOfRangeException for "periodicity" |
| MappingConfig.PeriodicityRoundTrip | server/HealthyPlant.Grpc/Infrastructure/Map/MappingConfig.cs:148-186 | the two periodicity mappings succeed exactly on the named values and are inverse to each other |
| DiagnosticContexts.DiagnosticContext.constructor | server/HealthyPlant.Grpc/Infrastructure/AppLog/DiagnosticContext.cs:19-22 | a new context is empty |
| DiagnosticContexts.DiagnosticContext.Set | server/HealthyPlant.Grpc/Infrastructure/AppLog/DiagnosticContext.cs:24-34 | setting stores the value under the case-folded name, "null" for a null value, and keeps an existing key's spelling |
| DiagnosticContexts.DiagnosticContext.Get | server/HealthyPlant.Grpc/Infrastructure/AppLog/DiagnosticContext.cs:36-38 | getting finds the value under the case-folded name and fails exactly when it is absent |
| DiagnosticContexts.DiagnosticContext.Remove | server/HealthyPlant.Grpc/Infrastructure/AppLog/DiagnosticContext.cs:40 | removing drops the case-folded name |
| DiagnosticContexts.DiagnosticContext.Pop | server/HealthyPlant.Grpc/Infrastructure/AppLog/DiagnosticContext.cs:41-45 | pop returns what get returns and removes the name only when it was present; on a missing name it fails and changes nothing |
| DiagnosticContexts.DiagnosticContext.GetData | server/HealthyPlant.Grpc/Infrastructure/AppLog/DiagnosticContext.cs:47 | the data returned is the current store |
| DiagnosticContexts.SetThenGet | server/HealthyPlant.Grpc/Infrastructure/AppLog/DiagnosticContext.cs:24-36 | after a set, get returns the value set, other names are unaffected, and the keys gain the folded name |
| DiagnosticContexts.SetIn | server/HealthyPlant.Grpc/Infrastructure/AppLog/DiagnosticContext.cs:24-34 | the store after a set; no contract of its own, stated by `SetThenGet` and `SetKeepsSpelling` |
| DiagnosticContexts.GetFrom | server/HealthyPlant.Grpc/Infrastructure/AppLog/DiagnosticContext.cs:36-38 | what a get answers; no contract of its own, stated by `SetThenGet` and `GetIgnoresCase` |
| DiagnosticContexts.RemoveFrom | server/HealthyPlant.Grpc/Infrastructure/AppLog/DiagnosticContext.cs:40 | the store after a remove; no contract of its own, stated by `RemoveSpec` |
| DiagnosticContexts.SetKeepsSpelling | server/HealthyPlant.Grpc/Infrastructure/AppLog/DiagnosticContext.cs:27-33 | an existing key keeps its first spelling, and a new key takes the given spelling |
| DiagnosticContexts.GetIgnoresCase | server/HealthyPlant.Grpc/Infrastructure/AppLog/DiagnosticContext.cs:21 | a name differing from the one set only in the case of ASCII letters finds the value set |
| DiagnosticContexts.RemoveSpec | server/HealthyPlant.Grpc/Infrastructure/AppLog/DiagnosticContext.cs:40 | after a remove the name is absent, other names are unaffected, and removing an absent name changes nothing |
| PlantCommands.InconsistentReadable | server/HealthyPlant.Grpc/Commands/CreateData/CreatePlantCommand.cs:70-71 | an action whose start is readable is inconsistent exactly when one of start and periodicity is set without the other |
| PlantCommands.InconsistentUnreadable | server/HealthyPlant.Grpc/Commands/CreateData/CreatePlantCommand.cs:70-71 | a start that cannot be converted throws InvalidOperationException |
| PlantCommands.UnreadableWateringThrows | server/HealthyPlant.Grpc/Commands/CreateData/CreatePlantCommand.cs:70-71 | an unreadable watering start makes both validators throw |
| PlantCommands.ScheduleOrder | server/HealthyPlant.Grpc/Commands/CreateData/CreatePlantCommand.cs:70-96 | the schedules are checked in the order watering, feeding, misting, repotting, and the first inconsistent one gives its code |
| PlantCommands.ChecksInOrder | server/HealthyPlant.Grpc/Commands/CreateData/CreatePlantCommand.cs:70-114 | the first failing check gives the code, and there is no code exactly when no check fails; the name and notes lengths are counted in UTF-16 code units |
| PlantCommands.CreatePlantVerdict | server/HealthyPlant.Grpc/Commands/CreateData/CreatePlantCommand.cs:68-124 | the plant is valid exactly when no check fails, the first failing check gives the code, and a valid plant carries IconRefEmpty when its icon is blank and NoError otherwise |
| PlantCommands.UpdatePlantVerdict | server/HealthyPlant.Grpc/Commands/UpdateData/UpdatePlantCommand.cs:68-131 | as for create, but a valid plant with an empty id carries Validation after the icon check |
| PlantCommands.AdmissionSpec | server/HealthyPlant.Grpc/Commands/CreateData/CreatePlantCommand.cs:39-47 | a missing plant is rejected with DocumentNotFound, an invalid one with its code, and a valid one is admitted |
| PlantCommands.Inconsistent | server/HealthyPlant.Grpc/Commands/CreateData/CreatePlantCommand.cs:70-71 | one action's schedule check; no contract of its own, stated by `InconsistentReadable` and `InconsistentUnreadable` |
| PlantCommands.ScheduleCheck | server/HealthyPlant.Grpc/Commands/CreateData/CreatePlantCommand.cs:70-96 | the four schedule checks; no contract of its own, stated by `ScheduleOrder` |
| PlantCommands.TextCheck | server/HealthyPlant.Grpc/Commands/CreateData/CreatePlantCommand.cs:98-114 | the name and notes checks, with lengths in UTF-16 code units; no contract of its own, stated by `ChecksInOrder` and `EmojiNameTooLong` |
| PlantCommands.EmojiNameTooLong | server/HealthyPlant.Grpc/Commands/CreateData/CreatePlantCommand.cs:104-108 | a one-emoji name is two code units long, so a maximum name length of 1 refuses it with NameMaxLength in both validators |
| PlantCommands.CreatePlantIsValid | server/HealthyPlant.Grpc/Commands/CreateData/CreatePlantCommand.cs:68-124 | the create validator; no contract of its own, stated by `CreatePlantVerdict` and `UnreadableWateringThrows` |
| PlantCommands.UpdatePlantIsValid | server/HealthyPlant.Grpc/Commands/UpdateData/UpdatePlantCommand.cs:68-131 | the update validator; no contract of its own, stated by `UpdatePlantVerdict` and `UnreadableWateringThrows` |
| PlantCommands.CreatePlantAdmission | server/HealthyPlant.Grpc/Commands/CreateData/CreatePlantCommand.cs:39-47 | the create handler up to the user lookup; no contract of its own, stated by `AdmissionSpec` |
| PlantCommands.UpdatePlantAdmission | server/HealthyPlant.Grpc/Commands/UpdateData/UpdatePlantCommand.cs:39-47 | the update handler up to the user lookup; no contract of its own, stated by `AdmissionSpec` |

## Left out

- Storage: reading and writing users in MongoDB (the BSON documents and their serializers) and the Firebase query builder are not modelled. The model works on the domain values they carry.
- Id generation: `ObjectId.GenerateNewId()` becomes the supplier `ids` plus a counter. The model does not prove that the ids are unique.
- Wall clock: `DateTime.UtcNow` becomes a "today" parameter. `TodayUserTime` (`UserDomain.cs:95`) is not modelled. Because today is passed in, the domain operations do not see a user whose stored time zone `DateTimeExtensions.ToOffset` refuses; in the source every read of `TodayUserDate` (`UserDomain.cs:93`) throws for that user, and `ToOffset` states that refusal.
- `AddNewUser` (`UserDomain.cs:311-320`) is not modelled. It picks the notification time from the current UTC hour.
- Parsing: `TimeSpan.TryParse` in the user constructor is not modelled. The model takes the parsed value.
- `Lazy<>` memoisation of the derived properties is not modelled. Each property is a function of the snapshot.
- Handlers, notifications and logging sinks are not modelled: the MediatR command handlers beyond their admission step, the Mapster registration, the notification sender and the Serilog enrichers.
- `UserDomain` equality and hash codes are not modelled.
- Time of day: dates are whole days. Sub-day times and the DateTime range checks are not modelled. The one exception is the month shift before the recent/old cutoff (`Calendar.CheckedAddMonths`), because the source reaches it.
- Sorting: .NET's `Sort` is an unstable introsort. The model uses a stable insertion sort and claims only what both guarantee: sorted by the key, and a permutation of the input.
- The group set: `GetHistoryGroups` builds a `HashSet` whose enumeration order is unspecified. The model keeps the groups in a map keyed by date and lists them in ascending date order. After the final sort by date the agenda is the same, because its dates are distinct.
- Periodicity codes that do not advance (a month- or year-tier code with magnitude 0, or a negative day code) make the source loop forever. The model excludes them by precondition. Every named code and every value produced by `MapIntToPeriodicity` advances.
- Wire enums: the protobuf enum numbers are not part of this model. The wire enums are datatypes with one case per name, plus a case for unknown values.
- `Timestamp.ToDateTime` throws `InvalidOperationException` inside the protobuf library. The model states this as an error result.
- Constants.cs is not part of this model. The maximum name and notes lengths are parameters of the validators.
- UserDomain.UpdatePlant: the entries added for today are stated only when the edited plant satisfies its history invariant and today is not before its one-month cutoff. Both hold for every plant the constructor builds. For other inputs the method's result is stated only up to its history.
- UserBackfill.AddMissingHistory: the properties of back-fill (restart date, the daily fill being idempotent, the multi-day fill not being idempotent, and append-only) are proved per action step and per plant step, and the method is proved equal to the composition of those steps. They are not restated as one formula over the whole user.
- Strings.FoldCase: only ASCII letters are folded. `StringComparer.OrdinalIgnoreCase` also upper-cases letters outside ASCII (é and É, Greek, Cyrillic) by the invariant simple case mapping, and that table is not part of this model. The only name the server stores is a constant ASCII key.
- Strings.FoldCaseIgnoresCase: states case-insensitivity for ASCII letters only, for the reason given for `Strings.FoldCase`.
- DiagnosticContexts.GetIgnoresCase: states case-insensitivity for ASCII letters only, for the reason given for `Strings.FoldCase`.
- Strings.Utf16Length: a .NET string may hold an unpaired surrogate, which a Dafny string cannot. The model counts well-formed text only.
- DateTimeExtensions.ToOffset: the `ArgumentOutOfRangeException` that .NET raises when the shifted clock leaves `DateTime`'s range (within 14 hours of the start of year 1 or the end of year 9999) is not modelled, as for the other `DateTime` range checks.
- DateService.ShiftPlantStartToFromDate: its contract states only the early return. The three tiers are stated by `DayTierShortcut`, `MonthTierShortcut` and `YearTierShortcut`.

## Findings

| source | as written | input that shows it | evidently intended | confidence | as-written member | corrected member |
|---|---|---|---|---|---|---|
| server/HealthyPlant.Domain/Plants/PlantDomain.cs:51-53 | The constructor splits the history into its recent and old parts (lines 51-52) before it assigns `TodayUserDate` (line 53). The split compares against `TodayUserDate.AddMonths(-1)` while `TodayUserDate` still holds the default 0001-01-01, so the call throws `ArgumentOutOfRangeException` for "months". | Any non-empty history, e.g. a stored plant with one history entry, as built at `server/HealthyPlant.Grpc/Infrastructure/Map/MappingConfig.cs:91-107` | Resolve today first, then split the history against today minus one month | high; not executed | PlantDomain.NewPlantAsWrittenThrows | PlantDomain.NewPlant |
