/** The records exchanged by the rule sets and the services: the shapes of a
    schedule (shift, break, compliance result) and of the live break events.
    Instants are integers counting milliseconds since the epoch. */
module Types {

  datatype Option<+T> = None | Some(value: T)

  datatype Result<+T> = Ok(value: T) | Fail(failure: Failure)

  /** What the JavaScript code throws. */
  datatype Failure =
    /** `Rules for state ${state} not implemented` */
    | UnsupportedRegion(region: string)
    /** a `TypeError` from reading `filter` of a shift whose `breaks` is undefined */
    | BreaksUndefined

  type EmployeeId = string

  /** Milliseconds since the epoch. */
  type Instant = int

  const MINUTE_MS: int := 60_000
  const HOUR_MS: int := 3_600_000

  datatype BreakType = Meal | Rest

  datatype Break = Break(breakType: BreakType, duration: int, isPaid: bool, waived: Option<bool>)

  datatype TimeRange = TimeRange(start: Instant, end: Instant)

  /** `breaks` is `None` when the object has no `breaks` property at all. */
  datatype Shift = Shift(
    id: string,
    employeeId: EmployeeId,
    timeRange: TimeRange,
    breaks: Option<seq<Break>>)

  datatype ScheduleInput = ScheduleInput(state: string, shifts: seq<Shift>)

  datatype IssueType = Error | Warning

  datatype ComplianceIssue = ComplianceIssue(
    issueType: IssueType,
    message: string,
    regulation: string,
    shiftId: string)

  /** `shiftId` is the extra property only the New York rule set puts on its
      result object; it is `None` for California. */
  datatype ComplianceResult = ComplianceResult(
    isCompliant: bool,
    issues: seq<ComplianceIssue>,
    recommendations: seq<string>,
    shiftId: Option<string>)

  datatype BreakEvent = BreakEvent(
    employeeId: EmployeeId,
    breakType: BreakType,
    scheduledTime: Instant,
    duration: int,
    isPaid: bool)

  datatype ClockInEvent = ClockInEvent(employeeId: EmployeeId, timestamp: Instant, state: string)

  datatype EmployeeShiftStatus = EmployeeShiftStatus(
    employeeId: EmployeeId,
    clockInTime: Instant,
    requiredBreaks: seq<BreakEvent>,
    completedBreaks: seq<BreakEvent>,
    state: string)

  /** `differenceInHours(later, earlier)`: the whole hours between two instants,
      the fraction truncated toward zero. */
  function DifferenceInHours(later: Instant, earlier: Instant): (h: int)
    ensures later >= earlier ==> 0 <= h && h * HOUR_MS <= later - earlier < (h + 1) * HOUR_MS
    ensures later <= earlier ==> h <= 0 && (h - 1) * HOUR_MS < later - earlier <= h * HOUR_MS
  {
    var d := later - earlier;
    if d >= 0 then d / HOUR_MS else -((-d) / HOUR_MS)
  }

  /** The shift length both rule sets compare against their thresholds. */
  function ShiftHours(shift: Shift): int {
    DifferenceInHours(shift.timeRange.end, shift.timeRange.start)
  }

  lemma {:induction false} WholeHours(start: Instant, n: int)
    ensures DifferenceInHours(start + n * HOUR_MS, start) == n
  {
  }
}
