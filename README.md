# Meal and rest break regulation helper, modelled in Dafny

The system checks work shifts against regional meal and rest break rules. It
also runs a small live service that reminds clocked-in employees of their
breaks.

- **California rules** (`CaliforniaRules`) work in audit mode. They compare the
  breaks recorded on a shift with what the shift's whole-hour length requires:
  - meal breaks: 0 up to 5 hours, 1 up to 10 hours, 2 beyond;
  - rest breaks: one per whole 4 hours;
  - minimum lengths: 30 minutes for a meal break, 10 for a rest break.
  Every shortfall is an `error` issue. The shift is compliant when there is no
  issue. When there is an issue, the result also carries two recommendations.
- **New York rules** (`NewYorkRules`) work in advisory mode. They never read
  the recorded breaks. They list a meal break for shifts longer than 6 hours
  and one rest break per whole 4 hours, as `warning` issues and
  recommendations. They always report the shift compliant.
- **The batch checker** (`ComplianceService`) chooses the rules from the
  schedule's region name, ignoring letter case. Only California is registered
  there, so every other name fails, New York included.
- **The break service** (`EmployeeBreaks.EmployeeBreakService`) keeps:
  - the active shifts, keyed by employee, in insertion order;
  - a list of subscribers, each of which receives a snapshot of the active
    shifts on every change.
  A clock-in checks a synthetic 8-hour shift against the region's rules. It
  turns every recommendation into a break event due (i+1)·2 hours after
  clock-in, stores the status, and arms one reminder per event still in
  the future.
  A clock-out cancels the employee's reminders and removes the entry.
- **The notification service** (`BreakNotifications.BreakNotificationService`)
  keeps each employee's timer handles. It arms a timer only for an event
  still in the future.

Modelling choices:
- Instants are integers counting milliseconds since the epoch.
- The whole-hour length truncates toward zero, as `differenceInHours` does.
- A shift's `breaks` is an `Option`. `None` stands for an object with no
  `breaks` property, and reading it is the `TypeError` the code would throw.
- Errors the code throws are the `Fail` case of a `Result`.
- Recommendations are the real strings, with numbers rendered by
  `IntToString`. An event is a meal break when the lowercased text contains
  `meal`.
- `Date.now()` is a parameter `now`.
- A subscriber is a number that stands for the callback's identity. Each
  call of a subscriber is logged as a `Delivery` of a snapshot.
- `subscribe` returns a closure that unsubscribes the callback. The model
  has the method `Unsubscribe(callback)` in its place.
- The batch checker has no fields, so it is a function, and equal inputs
  give equal outputs by construction.
- A timer handle is a number taken from a counter. Each `clearTimeout` call
  is logged in `cancelled`.

The code has these behaviours, which the model keeps:
- Clock-in does not clear an employee's earlier reminders before arming new
  ones. A second clock-in replaces the map entry, but the old timers stay
  armed (`NewYorkClockInTimers`, `ScheduleAllPending`).
- The synthetic clock-in shift has no `breaks`. California's rules read
  `shift.breaks.filter`, so every California clock-in throws, before
  anything changes (`CaliforniaClockInFails`, `HandleClockIn`).
- New York can be reached only from clock-in, not from the batch checker
  (`BatchAcceptsFewer`, `NewYorkRejected`).
- Neither rule set takes a mode argument. The mode is fixed by the rule set.
- The New York result carries a `shiftId` property, which the declared result
  type does not have. The model keeps it, as `Some(employeeId + "-" + id)`,
  and keeps California results at `None`.

## Model

| member | source | states |
|---|---|---|
| Types.DifferenceInHours | src/lib/rules/california.ts:15-18 | the whole hours between two instants, truncated toward zero: h·1h ≤ later−earlier < (h+1)·1h when later is not earlier, the mirror bound otherwise |
| Types.WholeHours | src/lib/services/employee-break-service.ts:47-50 | a range of exactly n hours measures n whole hours |
| Text.ToLower | src/lib/services/employee-break-service.ts:111 | lowercasing keeps the length, leaves no upper-case letter, moves each upper-case letter to its lower-case partner and keeps every other character |
| Text.ToLowerIdempotent | src/lib/services/employee-break-service.ts:111 | lowercasing twice is lowercasing once |
| Text.MentionsMeal | src/lib/services/employee-break-service.ts:111 | the meal test holds exactly when the letters `m`, `e`, `a`, `l` stand next to each other in the text, each in either case |
| Text.IntToString | src/lib/rules/california.ts:27 | the rendering of an integer starts with a minus sign exactly when it is negative, holds only digits after that, denotes the magnitude, and has no leading zero |
| Text.MealAt | src/lib/services/employee-break-service.ts:111 | any text with the lower-case word `meal` in it passes the meal test |
| Text.IntToStringHasNoM | src/lib/rules/california.ts:72-73 | a rendered number holds no `m` or `M`, so it cannot make a text read as a meal |
| OrderedMap.Get | src/lib/services/employee-break-service.ts:10 | `get` is absent exactly when the key is not in the map, and otherwise returns a value stored under it |
| OrderedMap.Put | src/lib/services/employee-break-service.ts:67 | `set` on a present key keeps the size; on a new key it appends the entry at the end |
| OrderedMap.Remove | src/lib/services/employee-break-service.ts:85 | after `delete`, the key is absent and the map is not larger |
| OrderedMap.Values | src/lib/services/employee-break-service.ts:90 | `values()` lists the stored values in entry order; `ValuesPutNew`, `ValuesPutPresent` and `ValuesRemove` tie that order to `set` and `delete` |
| OrderedMap.ValuesPutNew | src/lib/services/employee-break-service.ts:67 | `set` on a new key adds its value at the end of `values()` |
| OrderedMap.ValuesPutPresent | src/lib/services/employee-break-service.ts:67 | `set` on a present key replaces its value where it stands in `values()` |
| OrderedMap.ValuesRemove | src/lib/services/employee-break-service.ts:85 | `delete` of a present key drops exactly its value from `values()` and keeps the others in order |
| OrderedMap.PutGet | src/lib/services/employee-break-service.ts:67 | `set` keeps keys distinct, and a later `get` sees the new value for that key and the old value for every other key |
| OrderedMap.PutInPlace | src/lib/services/employee-break-service.ts:67 | `set` on a present key replaces that entry where it stands and moves no other entry |
| OrderedMap.RemoveAt | src/lib/services/employee-break-service.ts:85 | `delete` of a present key removes exactly that entry and keeps the others in order |
| OrderedMap.RemoveGet | src/lib/services/employee-break-service.ts:85 | after `delete`, the key is absent and every other key keeps its value |
| OrderedMap.RemoveKeepsDistinct | src/lib/services/employee-break-service.ts:85 | `delete` keeps the keys distinct |
| OrderedMap.RemoveOtherGet | src/lib/services/employee-break-service.ts:85 | `delete` leaves the value of every other key unchanged |
| OrderedMap.RemoveAbsent | src/lib/services/employee-break-service.ts:85 | `delete` of an absent key changes nothing |
| OrderedMap.RemoveIdempotent | src/lib/services/employee-break-service.ts:85 | deleting twice leaves what deleting once leaves |
| CaliforniaRules.RequiredMealBreaks | src/lib/rules/california.ts:84-88 | the required meal breaks are between 0 and 2: 0 exactly up to 5 hours, 2 exactly beyond 10 hours |
| CaliforniaRules.RequiredMealBreaksMonotone | src/lib/rules/california.ts:84-88 | a longer shift never requires fewer meal breaks |
| CaliforniaRules.RequiredRestBreaks | src/lib/rules/california.ts:34 | the required rest breaks are the floor of hours / 4, and are never negative for a non-negative length |
| CaliforniaRules.OfType | src/lib/rules/california.ts:22 | filtering by type keeps only breaks of that type and is no longer than the input |
| CaliforniaRules.OfTypeKeepsAll | src/lib/rules/california.ts:22 | the filter keeps every break of that type, as often as it was recorded, and no other, so its length is the number of such breaks taken |
| CaliforniaRules.DurationIssues | src/lib/rules/california.ts:47-56 | each duration issue is the same error, with the given message, regulation and shift id, and there is at most one per break |
| CaliforniaRules.PushDurationIssues | src/lib/rules/california.ts:47-67 | the `forEach`/`push` loop appends exactly the duration issues of its breaks, in order |
| CaliforniaRules.DurationIssuesSnoc | src/lib/rules/california.ts:47-56 | one more break adds one issue exactly when it is shorter than the minimum |
| CaliforniaRules.DurationIssuesAppend | src/lib/rules/california.ts:47-67 | the duration issues of two lists of breaks are those of the first followed by those of the second |
| CaliforniaRules.DurationIssuesCount | src/lib/rules/california.ts:46-67 | the duration issues of one type are exactly as many as the too-short breaks of that type |
| CaliforniaRules.CountShortZero | src/lib/rules/california.ts:48 | the count of too-short breaks is zero exactly when every break of that type meets the minimum |
| CaliforniaRules.Issues | src/lib/rules/california.ts:21-67 | every issue pushed for a shift with `breaks` is an error carrying the shift id |
| CaliforniaRules.Assemble | src/lib/rules/california.ts:70-81 | compliant exactly when there is no issue; no recommendation exactly when there is no issue, and otherwise two, the first passing the meal test and the second not |
| CaliforniaRules.Evaluate | src/lib/rules/california.ts:11-82 | the check succeeds exactly when the shift has `breaks`, and otherwise throws the `TypeError` |
| CaliforniaRules.CheckCompliance | src/lib/rules/california.ts:11-82 | the push-based procedure yields the result of `Evaluate` |
| CaliforniaRules.ErrorsForAppend | src/lib/rules/california.ts:24-67 | appending lists of errors against one shift yields a list of errors against that shift |
| CaliforniaRules.IssuesShape | src/lib/rules/california.ts:24-67 | every issue is an error carrying the shift id, and their number is the two count shortfalls plus the too-short meal and rest breaks |
| CaliforniaRules.CountIssuesFiled | src/lib/rules/california.ts:24-44 | the count checks file a meal-count issue exactly when meals fall short, and a rest-count issue exactly when rests do |
| CaliforniaRules.HasIssueAppend | src/lib/rules/california.ts:24-67 | an issue under a regulation is in a joined list exactly when it is in one of the parts |
| CaliforniaRules.ShortfallIssues | src/lib/rules/california.ts:22-44 | a meal-count issue is filed exactly when fewer meal breaks were taken than required, and a rest-count issue exactly when fewer rest breaks were |
| CaliforniaRules.CompliantIff | src/lib/rules/california.ts:77-78 | compliant exactly when there is no issue, which holds exactly when both counts are met and no meal break is under 30 minutes and no rest break under 10 |
| CaliforniaRules.Recommendations | src/lib/rules/california.ts:70-75 | no recommendation exactly when there is no issue; otherwise two, the first a meal text and the second not |
| CaliforniaRules.MealRecommendationMentionsMeal | src/lib/rules/california.ts:72 | the meal recommendation passes the meal test |
| CaliforniaRules.RestRecommendationIsNotMeal | src/lib/rules/california.ts:73 | the rest recommendation, for any count, fails the meal test |
| CaliforniaRules.EightHourShiftWithoutBreaks | src/lib/rules/california.ts:21-44 | an 8-hour shift with no breaks requires 1 meal and 2 rest breaks, gets exactly the two count issues, is not compliant, and gets both recommendations |
| NewYorkRules.RequiredRestBreaks | src/lib/rules/new-york.ts:41 | the required rest breaks are the floor of hours / 4 |
| NewYorkRules.CheckCompliance | src/lib/rules/new-york.ts:10-61 | always compliant; the result carries `employeeId-id`; the issues and recommendations are equally many, at most two, and every issue is a warning carrying `employeeId-id` |
| NewYorkRules.Entries | src/lib/rules/new-york.ts:21-53 | the meal entry is present exactly beyond 6 hours and comes first; the rest entry for hours / 4 breaks is present exactly when that is positive and comes last; only the first recommendation of a long shift passes the meal test |
| NewYorkRules.MealRecommendationMentionsMeal | src/lib/rules/new-york.ts:29 | the meal recommendation passes the meal test |
| NewYorkRules.RestRecommendationIsNotMeal | src/lib/rules/new-york.ts:44 | the rest recommendation, for any count, fails the meal test |
| NewYorkRules.IgnoresBreaks | src/lib/rules/new-york.ts:10-60 | two shifts of the same length, employee and id get the same result, whatever their breaks |
| NewYorkRules.ThreeHourShift | src/lib/rules/new-york.ts:21-42 | a 3-hour shift gets no issue and no recommendation |
| NewYorkRules.EightHourShift | src/lib/rules/new-york.ts:21-53 | an 8-hour shift gets the meal entry and the entry for two rest breaks, in that order |
| ComplianceService.EvaluateAll | src/lib/services/compliance-service.ts:8 | the map succeeds exactly when every shift has `breaks`, with one result per shift, the i-th being California's result for shift i |
| ComplianceService.CheckCompliance | src/lib/services/compliance-service.ts:5-12 | an unregistered region fails with its name before any shift is read; for California, all shifts with breaks give the per-shift results in order, and any shift without them makes the whole call throw |
| ComplianceService.CaseInsensitive | src/lib/services/compliance-service.ts:6 | region names that lowercase alike are treated alike |
| ComplianceService.UpperCaseCaAccepted | src/lib/services/compliance-service.ts:6-9 | `CA` is registered |
| ComplianceService.NewYorkRejected | src/lib/services/compliance-service.ts:10-11 | `ny` and `NY` fail for every schedule |
| ComplianceService.TexasRejected | src/lib/services/compliance-service.ts:10-11 | `TX` fails for every schedule |
| BreakNotifications.Schedule | src/lib/services/break-notification-service.ts:19-36 | with a delay that is not positive nothing changes; otherwise one new handle is appended to that employee's list, the key is added if missing, and every other list is unchanged |
| BreakNotifications.Clear | src/lib/services/break-notification-service.ts:38-44 | the employee's key is removed and every other list is unchanged |
| BreakNotifications.ScheduleAll | src/lib/services/employee-break-service.ts:70-72 | a batch issues at most one handle per event, never drops a key, and adds a key only for an employee with an event in the future |
| BreakNotifications.ArmedFor | src/lib/services/break-notification-service.ts:23 | the count of an employee's armed events is zero exactly when none of that employee's events is in the future, and equals the number of events exactly when all are that employee's and in the future |
| BreakNotifications.SchedulePreservesWellFormed | src/lib/services/break-notification-service.ts:23-34 | scheduling keeps every stored list non-empty, increasing and made of issued handles |
| BreakNotifications.ClearPreservesWellFormed | src/lib/services/break-notification-service.ts:38-44 | clearing keeps the same invariant |
| BreakNotifications.ClearIdempotent | src/lib/services/break-notification-service.ts:39-42 | clearing twice is clearing once, and afterwards the employee has no timer |
| BreakNotifications.ClearAbsent | src/lib/services/break-notification-service.ts:39-40 | clearing an employee without timers changes nothing |
| BreakNotifications.ClearAfterSchedule | src/lib/services/break-notification-service.ts:19-44 | clearing after scheduling leaves the map that clearing alone leaves |
| BreakNotifications.ScheduleAllPreservesWellFormed | src/lib/services/employee-break-service.ts:70-72 | scheduling a batch keeps the invariant |
| BreakNotifications.ScheduleAllPending | src/lib/services/employee-break-service.ts:70-72 | a batch keeps the employee's earlier timers in front and adds one per armed event of that employee |
| BreakNotifications.ScheduleAllNoneArmed | src/lib/services/break-notification-service.ts:23 | a batch of events none of which is in the future changes nothing |
| BreakNotifications.ScheduleAllOthers | src/lib/services/employee-break-service.ts:70-72 | employees without events in the batch keep their timers |
| BreakNotifications.BreakNotificationService.constructor | src/lib/services/break-notification-service.ts:8-10 | the service starts with no timers, no cancellations and the invariant |
| BreakNotifications.BreakNotificationService.ScheduleNotification | src/lib/services/break-notification-service.ts:19-36 | the new state is `Schedule` of the old one, nothing is cancelled, and the invariant holds |
| BreakNotifications.BreakNotificationService.ClearNotifications | src/lib/services/break-notification-service.ts:38-44 | the new state is `Clear` of the old one, and exactly the employee's handles are cancelled, in order |
| EmployeeBreaks.RulesForState | src/lib/services/employee-break-service.ts:93-104 | California exactly for `ca`/`california`, New York exactly for `ny`/`new york` after lowercasing, and otherwise a failure naming the region |
| EmployeeBreaks.RulesForStateCaseInsensitive | src/lib/services/employee-break-service.ts:94 | region names that lowercase alike choose the same rules |
| EmployeeBreaks.RegisteredNames | src/lib/services/employee-break-service.ts:94-103 | `CA` and `California` choose California, `NY` and `New York` choose New York, and `TX` fails |
| EmployeeBreaks.BatchAcceptsFewer | src/lib/services/employee-break-service.ts:93-104 | the batch checker's names are exactly those for which clock-in chooses California; New York names, accepted at clock-in, fail in the batch |
| EmployeeBreaks.BreakEvents | src/lib/services/employee-break-service.ts:106-124 | one event per recommendation: event i belongs to the employee, is due (i+1)·2 hours after start, is a meal exactly when its text passes the meal test, lasts 30 minutes for a meal and 10 for a rest, and is paid exactly when it is a rest |
| EmployeeBreaks.BreakEventsSpaced | src/lib/services/employee-break-service.ts:112 | events are due after the start, in order, and 2·(j−i) hours apart |
| EmployeeBreaks.FanOut | src/lib/services/employee-break-service.ts:36-39 | one delivery per subscriber, in order, all with the same snapshot |
| EmployeeBreaks.Without | src/lib/services/employee-break-service.ts:32 | the filtered list is no longer and no longer holds the callback; `WithoutAppend` fixes the order of the rest |
| EmployeeBreaks.WithoutAppend | src/lib/services/employee-break-service.ts:32 | filtering a joined list is filtering each part and joining, so the remaining callbacks keep their order |
| EmployeeBreaks.UnsubscribeFirstOfThree | src/lib/services/employee-break-service.ts:31-33 | unsubscribing the first of three distinct callbacks leaves the other two, in order |
| EmployeeBreaks.WithoutKeepsOthers | src/lib/services/employee-break-service.ts:32 | every other callback stays exactly when it was there; a list without the callback is left as it is |
| EmployeeBreaks.SubscribeThenUnsubscribe | src/lib/services/employee-break-service.ts:27-34 | subscribing a new callback and then calling its unsubscribe handle restores the list |
| EmployeeBreaks.ClockInShift | src/lib/services/employee-break-service.ts:43-51 | the synthetic shift belongs to the employee, starts at the clock-in instant, lasts exactly 8 whole hours, has no `breaks`, and has an id starting with the employee id and a dash |
| EmployeeBreaks.ClockInCompliance | src/lib/services/employee-break-service.ts:42-53 | an unknown region throws with its name, a California region throws the missing-`breaks` error, and a New York region gives New York's result for the synthetic shift |
| EmployeeBreaks.ClockIn | src/lib/services/employee-break-service.ts:41-64 | a clock-in throws exactly what checking the synthetic shift throws; otherwise the status belongs to the employee, starts at the clock-in instant, keeps the region, has no completed breaks, and has one required break per recommendation |
| EmployeeBreaks.ClockInUnsupported | src/lib/services/employee-break-service.ts:42 | an unsupported region makes clock-in throw with that region's name |
| EmployeeBreaks.CaliforniaClockInFails | src/lib/services/employee-break-service.ts:43-53 | a California clock-in always throws the missing-`breaks` error |
| EmployeeBreaks.NewYorkClockIn | src/lib/services/employee-break-service.ts:41-64 | a New York clock-in returns the status with an unpaid 30-minute meal 2 hours in and a paid 10-minute rest 4 hours in, and no completed breaks |
| EmployeeBreaks.ClockInSucceedsIffNewYork | src/lib/services/employee-break-service.ts:41-64 | a clock-in succeeds exactly for a New York region name |
| EmployeeBreaks.NewYorkClockInTimers | src/lib/services/employee-break-service.ts:70-72 | a New York clock-in keeps the employee's old timers and adds two, one or none, as `now` is before 2 hours, before 4 hours or later after the clock-in instant |
| EmployeeBreaks.ClockOutIdempotent | src/lib/services/employee-break-service.ts:83-87 | clocking out twice leaves the map and the timers as once, and the second call cancels nothing |
| EmployeeBreaks.ClockInThenOut | src/lib/services/employee-break-service.ts:67-85 | after clock-in the employee's entry is the new status, after clock-out it is gone, and other employees keep theirs throughout |
| EmployeeBreaks.EmployeeBreakService.constructor | src/lib/services/employee-break-service.ts:14-18 | the service starts with no active shift, no subscriber and the given notification service |
| EmployeeBreaks.EmployeeBreakService.GetActiveShifts | src/lib/services/employee-break-service.ts:89-91 | the statuses, one per active shift, in entry order; by `ValuesPutNew`, `ValuesPutPresent` and `ValuesRemove` a first clock-in adds its status at the end, a repeated one replaces it in place, and a clock-out drops exactly that one |
| EmployeeBreaks.EmployeeBreakService.Subscribe | src/lib/services/employee-break-service.ts:27-30 | the callback is appended and called once with the current statuses |
| EmployeeBreaks.EmployeeBreakService.Unsubscribe | src/lib/services/employee-break-service.ts:31-33 | the subscriber list becomes the old one without that callback |
| EmployeeBreaks.EmployeeBreakService.NotifySubscribers | src/lib/services/employee-break-service.ts:36-39 | every subscriber is called once, in order, with the same current statuses |
| EmployeeBreaks.EmployeeBreakService.GenerateBreakEvents | src/lib/services/employee-break-service.ts:106-124 | the `forEach`/`push` loop yields exactly `BreakEvents` |
| EmployeeBreaks.EmployeeBreakService.ScheduleBreaks | src/lib/services/employee-break-service.ts:70-72 | each event is passed to `scheduleNotification` once, in order |
| EmployeeBreaks.EmployeeBreakService.CheckClockIn | src/lib/services/employee-break-service.ts:42-53 | picking the rules and checking the synthetic shift yields `ClockInCompliance` |
| EmployeeBreaks.EmployeeBreakService.StartShift | src/lib/services/employee-break-service.ts:56-78 | the status is stored with `set`, its events are scheduled, and the subscribers get the new statuses |
| EmployeeBreaks.EmployeeBreakService.HandleClockIn | src/lib/services/employee-break-service.ts:41-81 | returns or throws what `ClockIn` says; a throw changes nothing; a success replaces the employee's entry, schedules the new events on top of any old timers, and notifies |
| EmployeeBreaks.EmployeeBreakService.HandleClockOut | src/lib/services/employee-break-service.ts:83-87 | the employee's timers are cancelled and their key dropped, their entry is removed, the subscribers are notified, and an absent employee is no error |

## Left out

- Toast messages, their wording and `toLocaleTimeString`: display only.
- Timers firing: the model keeps the handles a timer gets and those passed to
  `clearTimeout`, not the asynchronous callback that shows a reminder.
- ISO-8601 strings, `parseISO`, `addHours` and `toISOString`: instants are
  integers. A malformed timestamp, which would give an invalid date, has no
  counterpart.
- `Date.now()`: it is the parameter `now`. A clock-in uses one value for the
  shift id and for every timer delay.
- The `getInstance` singletons: the services are ordinary objects, and the
  break service receives its notification service when it is built.
- The `date` field of a shift: no operation in the model reads it.
- Letter case: `ToLower` lowers ASCII letters only. JavaScript's
  `toLowerCase` also lowers other scripts.
- The local `requiredBreaks` array in the New York rules: it is filled but
  never read or returned.
- What subscriber callbacks do with a snapshot, and callbacks that call back
  into the service or throw: a callback is only an identity.
- Break durations are whole minutes. The source's `number` may be
  fractional, but both minimums (30 and 10) are whole numbers, so `d < 30`
  holds exactly when `floor(d) < 30`, and every decision is kept.
- The `Break` fields `isPaid` and `waived`: they are carried but never read
  by the rules.
- Concurrency: all operations run one at a time, as in the single-threaded
  JavaScript program.
- The React components, page and hook: user interface wiring.
