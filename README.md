# Shift roster generator — a Dafny model

This project models the scheduling core of a web app that builds a month's
shift roster for a support team. The team has L1 and L2 engineers, each male
or female, and each may carry an `onlyMorningShift` constraint. The core is
`src/lib/roster-utils.ts`:

- the dates of a month;
- the pure lookups over leave requests and assignments: on leave, worked a
  night yesterday, consecutive working days, an employee's shift on a day,
  and shifts counted by type;
- `generateRoster`, with its three passes over the month.

The model also covers the record and enum types of `src/lib/types.ts` and the
previous/next month buttons of `src/components/RosterHeader.tsx`.

Everything here is proved by the Dafny verifier. Nothing was executed.

## Structure

| file | module | contents |
|---|---|---|
| `types.dfy` | `RosterTypes` | shift types, roles and genders with their codes; `Employee`, `ShiftAssignment`, `LeaveRequest`, `RosterMonth` |
| `calendar.dfy` | `Calendar` | proleptic Gregorian day numbers, month lengths, the weekday, and JavaScript's month normalisation |
| `roster_header.dfy` | `RosterHeader` | `prevMonth` and `nextMonth` |
| `roster_queries.dfy` | `RosterQueries` | the pure lookups; `Obs`, the (count, first shift) view of one employee on one day |
| `roster_generation.dfy` | `RosterGeneration` | `getDatesInMonth` with `MonthDates`, the dates it lists, `getConsecutiveWorkingDays`, the employee groups, and the reference shift of each group on each day |
| `female_pass.dfy`, `male_pass.dfy`, `l2_pass.dfy` | `FemalePass`, `MalePass`, `L2Pass` | the three passes: each is a loop method, the function that specifies it, and lemmas about what the pass leaves per employee and day |
| `roster.dfy` | `Roster` | `generateRoster` and the theorems about the finished roster |

All of `src/lib/roster-utils.ts` except the calendar is split over the last six
modules: the lookups, the groups and reference shifts, one module per pass,
and the finished roster. The split follows the passes of `generateRoster`,
and it keeps each proof small: every pass's lemmas see only the definitions
they are about.

A date is an `int` day number. Day 0 is 1 January 1970, a Thursday. `Weekday`
plays the role of `getDay()`, with 0 for Sunday.
`DayNumber(year, month, day)` is `new Date(year, month, day)`:

- the month is 0-based and normalised into the year, as JavaScript does;
- the day may run past the end of the month.

The assignment list that `generateRoster` grows with `push` is a local
`seq<ShiftAssignment>`, extended with `+ [x]`.

Each loop is a `method` proved equal to a specification function:

- `AssignFemaleL1` equals `FemalePassList`;
- `AssignMaleL1s` equals `MalePassList`;
- `AssignL2s` equals `L2PassList`.

Each function mirrors its loop one date at a time. The per-employee lemmas
then use the functions.

The theorems about the finished roster are stated through
`Obs(assignments, id, d)`. This pairs the number of entries for `(id, d)` with
what `getEmployeeShift` returns for them. `SingleEntry(a, id, d, s)` says there
is exactly one entry, and its shift is `s`.

### What the code does

`generateRoster` is marked in its own comment as a simplified algorithm that
does not implement all rules (`src/lib/roster-utils.ts:113`). Several comments
in it name rules that the code next to them does not carry out. The model
follows the code:

- **Week patterns.** Lines 122-126 record a six-day or five-day week for every
  employee in `employeeWeekPatterns`. Nothing reads that record afterwards.
- **Female short weeks.** The comment at line 133 speaks of toggling every six
  or five days. The code flips `shouldWork` when the day index (not the
  weekday) is 7, 14, 21 or 28. Off leave, the female L1 is Off on a Saturday
  exactly when the day index modulo 14 is 7 or more
  (`RosterGeneration.ShortWeeksAlternate`). She works Sundays like any other
  day (`Roster.FemaleL1Roster`).
- **Female selection.** The female L1 is the first L1 woman with
  `onlyMorningShift` (line 119). The first and second passes touch only her
  and the male L1s. Any other L1 woman gets no entries at all
  (`Roster.OtherFemaleL1sGetNothing`). When no L1 woman has the flag, no L1
  woman gets any entry.
- **Sundays and Saturdays for male L1s.** The comments at lines 184 and 197
  speak of skipping Saturdays of a five-day week and Sundays. The code only
  gives Off to the male L1 at position 3 on a Sunday. No Saturday is treated
  differently, and nobody else is Off on a Sunday.
- **Male L1 rotation.** The comment at lines 217-218 mentions a day off by a
  6-5-6-5-6 pattern, but no code follows it. The rotation is daily, over
  Morning, Afternoon and Night, with no Off in the cycle. Each position moves
  on by one shift per day. So a male L1 whom the rotation gives a Night gets
  the Morning of the next day, provided that he is not on leave that day and
  that the next day is not a Sunday with him at position 3
  (`RosterGeneration.NightIsFollowedByMorning`). Leave and the Sunday Off
  take precedence over the rotation.
- **L2 rotation.** Lines 250-253 repeat the 6-5-6-5-6 comment. The
  Saturday-off branch is guarded by the constant `isFiveDayWeek = false`, so
  it never fires. The rotation is daily, over Morning and Afternoon. The model
  keeps the branch, and `L2Pass.L2StepShift` proves it dead.
- **Substitute search.** The search at lines 151-154 also asks "worked a
  night yesterday". While the female pass runs, the list holds no Night at
  all, so that test never rules anyone out
  (`RosterGeneration.AvailableL1IsFirstNotOnLeave`).
- **No duplicate entries.** A male L1 who substitutes for the female L1 keeps
  that Morning: the male pass skips anyone who already has an entry that day.
  With distinct ids, every male L1, every L2 and the selected female L1 ends
  up with exactly one entry per day of the month.

## Model

| member | source | states |
|---|---|---|
| RosterTypes.ParseShiftType | src/lib/types.ts:2-8 | a character names a shift exactly when it is one of M, A, N, O, L, and then names the shift with that code |
| RosterTypes.ShiftCodeRoundTrip | src/lib/types.ts:2-8 | every shift's code reads back as that shift |
| RosterTypes.ShiftTypesAreFiveWithDistinctCodes | src/lib/types.ts:2-8 | there are exactly five shift types, and their codes are pairwise distinct |
| RosterTypes.ParseRole | src/lib/types.ts:10-13 | a string names a role exactly when it is "L1" or "L2", and then names the role with that label |
| RosterTypes.ParseGender | src/lib/types.ts:15-18 | a string names a gender exactly when it is "Male" or "Female", and then names the gender with that label |
| RosterTypes.RolesAndGendersRoundTrip | src/lib/types.ts:10-18 | every role and gender label reads back as itself |
| RosterTypes.MissingMorningFlagReadsFalse | src/lib/roster-utils.ts:119 | an employee without constraints, or without `onlyMorningShift: true`, is not treated as morning-only (the optional chain reads as false) |
| Calendar.MonthLength | src/lib/roster-utils.ts:26 | a month has 28 to 31 days; 29 exactly for February of a leap year, 28 exactly for February of a common year, 30 exactly for April, June, September and November |
| Calendar.NormalizationKeepsMonthCount | src/lib/roster-utils.ts:30 | `new Date(year, month, day)` moves an out-of-range month into 0..11 of another year without changing the absolute month count, and leaves a valid month as it is |
| Calendar.DaysInMonth | src/lib/roster-utils.ts:26 | the month of any (year, month) pair has between 28 and 31 days |
| Calendar.YearLength | src/lib/roster-utils.ts:30 | a year has 366 days exactly when it is a leap year, otherwise 365, and its twelve months fill it exactly |
| Calendar.DayNumber | src/lib/roster-utils.ts:30 | `new Date(year, month, day)` with a day of the month falls in the year the month is normalised into |
| Calendar.MonthsTile | src/lib/roster-utils.ts:29-31 | the day after the last day of a month is day 1 of the next month |
| Calendar.DaysOfMonthAreConsecutive | src/lib/roster-utils.ts:29-31 | day n + 1 of a month is the day after day n |
| Calendar.DayOffset | src/lib/roster-utils.ts:29-31 | day n of a month lies n - 1 days after day 1, so a date's index in the month is its day of the month minus 1 |
| Calendar.Weekday | src/lib/roster-utils.ts:139 | `getDay()` is always between 0 (Sunday) and 6 (Saturday) |
| Calendar.EpochIsThursday | src/lib/roster-utils.ts:139 | 1 January 1970 is day 0 and a Thursday |
| Calendar.AprilFirst2024IsMonday | src/lib/roster-utils.ts:139 | 1 April 2024 is day 19814 and a Monday |
| Calendar.AprilSaturdays2024 | src/lib/roster-utils.ts:139 | 6 and 13 April 2024 are Saturdays |
| Calendar.MonthLengthExamples | src/lib/roster-utils.ts:26 | February has 29 days in 2000 and 2024 and 28 in 1900 and 2023; April 2024 has 30 days |
| RosterHeader.PrevMonth | src/components/RosterHeader.tsx:36-43 | the previous month is one month earlier, stays a valid month, and keeps the year except from January |
| RosterHeader.NextMonth | src/components/RosterHeader.tsx:45-52 | the next month is one month later, stays a valid month, and keeps the year except from December |
| RosterHeader.StepsAreInverse | src/components/RosterHeader.tsx:36-52 | on a valid month, next after previous and previous after next both return the same month and year |
| RosterHeader.NextMonthFollowsCalendar | src/components/RosterHeader.tsx:45-52 | the month `nextMonth` selects starts the day after the current month ends, December to January included |
| RosterHeader.PrevMonthFollowsCalendar | src/components/RosterHeader.tsx:36-43 | the current month starts the day after the month `prevMonth` selects ends |
| RosterQueries.IsEmployeeOnLeave | src/lib/roster-utils.ts:37-41 | true exactly when some leave request has this employee id and this date |
| RosterQueries.WorkedNightShiftYesterday | src/lib/roster-utils.ts:44-56 | true exactly when some assignment gives this employee a Night on the day before |
| RosterQueries.HasWorkingShift | src/lib/roster-utils.ts:68-73 | true exactly when some assignment gives this employee, on this day, a shift other than Off and Leave |
| RosterQueries.FindAssignmentMatches | src/lib/roster-utils.ts:90-92 | the `find` answers an assignment of the list for this employee and day, and none exactly when the list holds none |
| RosterQueries.GetEmployeeShift | src/lib/roster-utils.ts:85-95 | none exactly when no assignment is for this employee and day; otherwise the shift of some assignment for them |
| RosterQueries.GetEmployeeShiftIsFirstMatch | src/lib/roster-utils.ts:85-95 | the lookup answers none exactly when no assignment is for this employee and day; otherwise it answers the shift of the first one in list order |
| RosterQueries.CountShiftsByType | src/lib/roster-utils.ts:98-111 | the count is at most the list length; it is 0 exactly when no entry matches the employee, shift type and inclusive range; it equals the length exactly when all entries match |
| RosterQueries.CountShiftsByTypeSplits | src/lib/roster-utils.ts:98-111 | the count over two lists joined is the sum of the counts |
| RosterQueries.CountShiftsByTypeMonotone | src/lib/roster-utils.ts:98-111 | widening the date range never lowers the count |
| RosterQueries.CountZeroIffNotFound | src/lib/roster-utils.ts:85-95 | an employee has no entries on a day exactly when the shift lookup answers none |
| RosterQueries.PushObservation | src/lib/roster-utils.ts:143-147 | pushing an entry adds one to that employee's and day's count; the lookup keeps an earlier answer and otherwise takes the pushed shift; other employees and days do not change |
| RosterQueries.WorkingRunIsUnique | src/lib/roster-utils.ts:59-82 | the length of the working run that ends on a day is determined by the assignments |
| RosterGeneration.MonthDates | src/lib/roster-utils.ts:25-34 | the month's dates number DaysInMonth and run consecutively from day 1 of the month |
| RosterGeneration.GetDatesInMonth | src/lib/roster-utils.ts:25-34 | the loop returns exactly the month's dates, `MonthDates` |
| RosterGeneration.GetConsecutiveWorkingDays | src/lib/roster-utils.ts:59-82 | the result n is the working run ending on `endDate`: working shifts on `endDate` and the n - 1 days before it, none on the day before those; it is 0 exactly when `endDate` itself has no working shift |
| RosterGeneration.Filter | src/lib/roster-utils.ts:117-120 | an employee is kept exactly when it is in the input and passes the test (role L1, role L2, or male) |
| RosterGeneration.FilterAppend | src/lib/roster-utils.ts:117-120 | filtering keeps the input's order: the filter of a concatenation is the concatenation of the filters, so position p of a group is the source's `empIndex` p |
| RosterGeneration.FilterSingleton | src/lib/roster-utils.ts:117-120 | a one-element list keeps its employee exactly when the test accepts it |
| RosterGeneration.FilterKeepsUniqueIds | src/lib/roster-utils.ts:117-120 | filtering keeps ids distinct |
| RosterGeneration.FindMorningOnlyFemale | src/lib/roster-utils.ts:119 | none exactly when no L1 is a morning-only woman; otherwise the first such L1 in list order |
| RosterGeneration.GroupsAreDisjoint | src/lib/roster-utils.ts:116-120 | with distinct employee ids, the male L1s and the L2s each have distinct ids; the selected female L1 is an L1 woman from the input and shares no id with a male L1 or an L2; no male L1 shares an id with an L2 |
| RosterGeneration.FemaleL1Shift | src/lib/roster-utils.ts:139-175 | the female L1 is never given Afternoon or Night; she gets Leave exactly on her leave days, and Off exactly on a Saturday of a short week when not on leave |
| RosterGeneration.ShouldWorkToggles | src/lib/roster-utils.ts:130-136 | `shouldWork` as a function of the day index flips exactly at the nonzero multiples of seven |
| RosterGeneration.ShortWeeksAlternate | src/lib/roster-utils.ts:134-139 | off leave, the female L1 is Off on a Saturday exactly when the day index modulo 14 is 7 or more |
| RosterGeneration.FirstNotOnLeave | src/lib/roster-utils.ts:151-154 | none exactly when every male L1 is on leave; otherwise the first male L1 not on leave |
| RosterGeneration.SubstituteOn | src/lib/roster-utils.ts:142-162 | a substitute exists only when there is a female L1 and she is on leave, and is a male L1 who is not on leave |
| RosterGeneration.MaleRotationShift | src/lib/roster-utils.ts:197-228 | a male L1's own shift is Off exactly for position 3 on a Sunday, and Leave exactly when he is on leave and not in that case |
| RosterGeneration.MaleL1Shift | src/lib/roster-utils.ts:151-228 | a substitute works Morning; Off exactly for a non-substitute at position 3 on a Sunday; Leave exactly for a non-substitute on leave outside that case; Night only for someone neither substituting nor on leave |
| RosterGeneration.L2Shift | src/lib/roster-utils.ts:241-272 | an L2 is never given Night or Off, and gets Leave exactly on its leave days |
| RosterGeneration.RotationStaffsEveryShift | src/lib/roster-utils.ts:220-222 | on any day, positions 0, 1 and 2, when not on leave, get Morning, Afternoon and Night, one each |
| RosterGeneration.NightIsFollowedByMorning | src/lib/roster-utils.ts:220-231 | a male L1 given Night by the rotation is given Morning by it the next day |
| RosterGeneration.L2RotationAlternates | src/lib/roster-utils.ts:265-275 | neighbouring L2s get different shifts on the same day, and an L2 changes shift from each day to the next |
| RosterGeneration.FindAvailableL1 | src/lib/roster-utils.ts:151-154 | a result is a male L1 who is not on leave and did not work a Night the day before; none exactly when every male L1 fails one of the two tests |
| RosterGeneration.FindAvailableL1IsFirst | src/lib/roster-utils.ts:151-154 | the result is the first qualifying male L1: every male L1 before it in the list is on leave or worked a Night the day before |
| RosterGeneration.AvailableL1IsFirstNotOnLeave | src/lib/roster-utils.ts:151-154 | while the list holds no Night, the substitute search returns the first male L1 not on leave |
| FemalePass.FemaleDayEntriesShape | src/lib/roster-utils.ts:139-175 | one date's entries: the female L1's own entry first, Leave exactly on leave, Off exactly on a short-week Saturday off leave, Morning otherwise; a second entry only on her leave days, a Morning for a male L1 not on leave; no second entry on a leave day exactly when every male L1 is on leave or worked a Night the day before |
| FemalePass.AssignFemaleL1OnDate | src/lib/roster-utils.ts:139-175 | one date's body appends exactly the date's entries: Leave plus the substitute's Morning, or Morning, or Off |
| FemalePass.AssignFemaleL1 | src/lib/roster-utils.ts:129-177 | the loop, with its `shouldWork` toggle, builds exactly the pass's list |
| FemalePass.FemalePassShape | src/lib/roster-utils.ts:129-177 | every entry of the first pass falls within the month's dates, is not a Night, and belongs to the female L1 or to a male L1 |
| FemalePass.FemaleDayObservation | src/lib/roster-utils.ts:141-175 | on a date where the list has nothing for an employee yet, the date's entries leave the female L1 with her one shift and the substitute with one Morning, and nobody else with anything |
| FemalePass.FemalePassObservation | src/lib/roster-utils.ts:129-177 | after the first pass, for each employee and day: the female L1 has one entry with her shift, the substitute has one Morning, everyone else has none |
| FemalePass.FemalePassCoversFemale | src/lib/roster-utils.ts:129-177 | after the first pass the female L1 has exactly one entry on each date, with `FemaleL1Shift` for that day |
| MalePass.MaleStepPushesRotationShift | src/lib/roster-utils.ts:190-228 | one male L1 on one date: the list is unchanged when he already has an entry that day, otherwise exactly one entry for him on that date is pushed, carrying `MaleRotationShift` |
| MalePass.AssignMaleL1sOnDate | src/lib/roster-utils.ts:189-229 | the inner loop over the male L1s builds exactly the date's part of the pass |
| MalePass.AssignMaleL1s | src/lib/roster-utils.ts:180-232 | the outer loop, with `l1ShiftIndex` kept as the date index modulo 3, builds exactly the pass's list |
| MalePass.MaleStepObservation | src/lib/roster-utils.ts:189-228 | one male L1 on one date changes only his own entry for that date, and only when he had none: then he has exactly one, with his rotation shift |
| MalePass.MaleDayOthers | src/lib/roster-utils.ts:189-229 | one date of the pass leaves other days, and employees it does not reach, as they were |
| MalePass.MaleDayObservation | src/lib/roster-utils.ts:189-229 | with distinct ids, a male L1 ends the date with the entry he already had, or else with exactly one entry carrying his rotation shift |
| MalePass.MalePassOthers | src/lib/roster-utils.ts:183-232 | the pass leaves employees who are not male L1s, and days outside the month, as they were |
| MalePass.RotationIndexModThree | src/lib/roster-utils.ts:221-231 | keeping the rotation index modulo 3 gives the same shift as the plain date index |
| MalePass.MalePassObservation | src/lib/roster-utils.ts:183-232 | with distinct ids, each male L1 ends each date of the pass with the entry he had before, or else with exactly one entry carrying `MaleRotationShift` for that date's index |
| L2Pass.L2StepShift | src/lib/roster-utils.ts:241-272 | the shift pushed for an L2 is Leave or the rotation shift: the five-day-week Saturday branch never fires |
| L2Pass.AssignL2sOnDate | src/lib/roster-utils.ts:239-273 | the inner loop over the L2s builds exactly the date's part of the pass |
| L2Pass.AssignL2s | src/lib/roster-utils.ts:235-276 | the outer loop, with `l2ShiftIndex` kept as the date index modulo 2, builds exactly the pass's list |
| L2Pass.L2DayOthers | src/lib/roster-utils.ts:239-273 | one date of the pass leaves other days, and employees it does not reach, as they were |
| L2Pass.L2DayObservation | src/lib/roster-utils.ts:239-273 | with distinct ids, an L2 gets exactly one more entry on the date; if it had none, that entry carries its shift |
| L2Pass.L2PassOthers | src/lib/roster-utils.ts:238-276 | the pass leaves employees who are not L2s, and days outside the month, as they were |
| L2Pass.RotationIndexModTwo | src/lib/roster-utils.ts:265-275 | keeping the rotation index modulo 2 gives the same shift as the plain date index |
| L2Pass.L2PassObservation | src/lib/roster-utils.ts:238-276 | with distinct ids, an L2 gets exactly one more entry on each date of the pass, carrying `L2Shift` for that date's index if it had none before |
| Roster.GenerateRoster | src/lib/roster-utils.ts:114-284 | the roster carries the year, the month and the leave list it was given, and the assignments of the three passes in order |
| Roster.NoEntryInFirstPass | src/lib/roster-utils.ts:129-177 | the first pass has nothing for anyone who is neither the selected female L1 nor a male L1, and nothing outside the dates |
| Roster.FirstPassForMaleL1 | src/lib/roster-utils.ts:142-162 | with distinct ids, after the first pass a male L1 has one Morning on the days he substitutes, and nothing otherwise |
| Roster.FemaleL1AfterPasses | src/lib/roster-utils.ts:129-276 | with distinct ids, over any run of consecutive dates, the three passes leave the female L1 exactly one entry per date, carrying `FemaleL1Shift` |
| Roster.MaleL1AfterPasses | src/lib/roster-utils.ts:129-276 | with distinct ids, over any run of consecutive dates, the three passes leave each male L1 exactly one entry per date: Morning when he substitutes, else `MaleRotationShift` |
| Roster.L2AfterPasses | src/lib/roster-utils.ts:129-276 | with distinct ids, over any run of consecutive dates, the three passes leave each L2 exactly one entry per date, carrying `L2Shift` |
| Roster.NothingElseAfterPasses | src/lib/roster-utils.ts:129-276 | the three passes give no entry to anyone outside the three groups, and none outside the dates |
| Roster.FemaleL1Roster | src/lib/roster-utils.ts:114-284 | with distinct ids, the female L1 has exactly one entry on each date of the month: Leave on her leave days, Off on a Saturday of a short week, Morning otherwise (Sundays included) |
| Roster.MaleL1Roster | src/lib/roster-utils.ts:114-284 | with distinct ids, each male L1 has exactly one entry on each date of the month: Morning when he substitutes for the female L1, else Off at position 3 on a Sunday, else Leave on his leave days, else his rotation shift by date index and position |
| Roster.L2Roster | src/lib/roster-utils.ts:114-284 | with distinct ids, each L2 has exactly one entry on each date of the month: Leave on its leave days, else its Morning or Afternoon rotation shift by date index and position |
| Roster.NothingElseInRoster | src/lib/roster-utils.ts:114-284 | the roster has no entry outside the month, and none for an employee outside the three groups |
| Roster.OtherFemaleL1sGetNothing | src/lib/roster-utils.ts:119 | with distinct ids, an L1 woman other than the selected one gets no entry on any day |
| Roster.April2024Saturdays | src/lib/roster-utils.ts:132-175 | in April 2024 the female L1, when not on leave, works Saturday the 6th (first seven-day block) and is Off on Saturday the 13th (second block) |

## Left out

- `src/lib/excel-utils.ts`, the React components other than the two month buttons, and the page are not part of this model. They are presentation and file export.
- `exportToExcel` (`src/lib/roster-utils.ts:287-290`) only shows an alert and logs. It is I/O and is left out.
- `defaultEmployees` (`src/lib/roster-utils.ts:14-22`) is sample data. The theorems hold for any employee list, so it is not modelled.
- `employeeWeekPatterns` (`src/lib/roster-utils.ts:123-126`) is written but never read. It does not affect the roster.
- The `noNightShift` constraint is carried in `Employee` but never consulted, as in the source.
- `name` is carried in `Employee`. Nothing in the core reads it.
- Dates are whole days. Local time, time zones and daylight-saving changes of JavaScript's `Date` are left out.
- `isSameDay` becomes equality of day numbers.
- Calendar.DaysInMonth: JavaScript's `Date` covers only about 273,790 years on either side of 1970. Outside that range `getDaysInMonth` gives NaN, `getDatesInMonth` returns no dates and the roster is empty. The model's calendar has no such limit, so its month always has 28 to 31 days.
- Calendar.DayNumber: the model takes year, month and day as integers. JavaScript truncates a fractional year or month, and the model does not represent fractions at all.
- JavaScript maps years 0 to 99 to 1900 to 1999 in `new Date(year, month, day)`. The model does not do this: years are taken as written.
- The year dropdown of the header (the list of years offered) is UI and is left out.
- The header's callbacks `onMonthChange` and `onYearChange` become a returned `MonthYear` value.
- Roster.FemaleL1Roster, Roster.MaleL1Roster, Roster.L2Roster and Roster.OtherFemaleL1sGetNothing require distinct employee ids. With duplicate ids the source merges two employees' entries. The model's passes handle duplicates exactly as the source does, but no theorem describes that outcome.
- Roster.FemaleL1Roster, Roster.MaleL1Roster and Roster.L2Roster fix the count and the first match of each (employee, day). They do not fix where in the list each entry sits. `Roster.GenerateRoster` does fix the whole list, through the pass functions.
- `getConsecutiveWorkingDays` and `countShiftsByType` have no caller inside `generateRoster`. They are modelled as the stand-alone queries they are.
