/** New York's rule set, in advisory mode: the recorded breaks are never looked
    at; the rule set only lists the breaks a shift of this length calls for, as
    warnings and recommendations, and always reports the shift compliant. */
module NewYorkRules {
  import opened Types
  import opened Text

  const MEAL_BREAK_THRESHOLD: int := 6  // hours
  const REST_BREAK_INTERVAL: int := 4   // hours
  const MEAL_BREAK_DURATION: int := 30  // minutes
  const REST_BREAK_DURATION: int := 15  // minutes

  const MEAL_REGULATION: string := "NY Meal Break Requirement"
  const REST_REGULATION: string := "NY Rest Break Requirement"

  /** The id every issue and the result carry: `${employeeId}-${id}`. */
  function ResultShiftId(shift: Shift): string {
    shift.employeeId + "-" + shift.id
  }

  function MealRecommendation(): string {
    "Schedule one unpaid meal break of " + IntToString(MEAL_BREAK_DURATION) + " minutes"
  }

  function RestRecommendation(required: int): string {
    "Schedule " + IntToString(required) + " paid rest break(s) of "
    + IntToString(REST_BREAK_DURATION) + " minutes each"
  }

  function MealIssue(shiftId: string): ComplianceIssue {
    ComplianceIssue(Warning, "Shift requires a meal break", MEAL_REGULATION, shiftId)
  }

  function RestIssue(required: int, shiftId: string): ComplianceIssue {
    ComplianceIssue(Warning, "Shift requires " + IntToString(required) + " rest break(s)", REST_REGULATION, shiftId)
  }

  /** `Math.floor(shiftDuration / REST_BREAK_INTERVAL)` */
  function RequiredRestBreaks(hours: int): (r: int)
    ensures r * REST_BREAK_INTERVAL <= hours < (r + 1) * REST_BREAK_INTERVAL
  {
    hours / REST_BREAK_INTERVAL
  }

  /** `NewYorkRules.checkCompliance`: a meal entry when the shift is longer than
      six hours, then a rest entry when it holds at least one whole four-hour
      interval. */
  function CheckCompliance(shift: Shift): (r: ComplianceResult)
    ensures r.isCompliant
    ensures r.shiftId == Some(ResultShiftId(shift))
    ensures |r.issues| == |r.recommendations| <= 2
    ensures forall i :: 0 <= i < |r.issues| ==>
      r.issues[i].issueType == Warning && r.issues[i].shiftId == ResultShiftId(shift)
  {
    var hours := ShiftHours(shift);
    var id := ResultShiftId(shift);
    var required := RequiredRestBreaks(hours);
    var meal := hours > MEAL_BREAK_THRESHOLD;
    var rest := required > 0;
    ComplianceResult(
      true,
      (if meal then [MealIssue(id)] else []) + (if rest then [RestIssue(required, id)] else []),
      (if meal then [MealRecommendation()] else []) + (if rest then [RestRecommendation(required)] else []),
      Some(id))
  }

  // ---------------------------------------------------------------------------
  // Properties of the rule set

  lemma MealRecommendationMentionsMeal()
    ensures MentionsMeal(MealRecommendation())
  {
    var r := MealRecommendation();
    assert r[20] == 'm' && r[21] == 'e' && r[22] == 'a' && r[23] == 'l';
    MealAt(r, 20);
  }

  lemma RestRecommendationIsNotMeal(n: int)
    ensures !MentionsMeal(RestRecommendation(n))
  {
    var head := "Schedule " + IntToString(n) + " paid rest break(s) of " + IntToString(REST_BREAK_DURATION);
    var tail: string := "nutes each";
    IntToStringHasNoM(n);
    IntToStringHasNoM(REST_BREAK_DURATION);
    assert 'm' !in head && 'M' !in head;
    NoMealLeadingM('m', 'i', tail);
    assert " minutes each" == " " + (['m', 'i'] + tail);
    NoMealPrefix(" ", ['m', 'i'] + tail);
    NoMealPrefix(head, " minutes each");
  }

  /** The meal entry is present exactly when the shift is longer than six hours,
      the rest entry exactly when `hours / 4` is positive, each recommendation
      paired with the issue at the same position, and the meal entry first:
      as the break-event generator's text test classifies them, only the first
      recommendation of a long shift is a meal. */
  lemma {:induction false} Entries(shift: Shift)
    ensures var r := CheckCompliance(shift);
      var hours := ShiftHours(shift);
      var required := RequiredRestBreaks(hours);
      var meal := hours > MEAL_BREAK_THRESHOLD;
      && |r.recommendations| == (if meal then 1 else 0) + (if required > 0 then 1 else 0)
      && (meal ==> r.recommendations[0] == MealRecommendation() && r.issues[0] == MealIssue(ResultShiftId(shift)))
      && (required > 0 ==>
           r.recommendations[|r.recommendations| - 1] == RestRecommendation(required)
           && r.issues[|r.issues| - 1] == RestIssue(required, ResultShiftId(shift)))
      && (forall i :: 0 <= i < |r.recommendations| ==>
           (MentionsMeal(r.recommendations[i]) <==> meal && i == 0))
  {
    var r := CheckCompliance(shift);
    var hours := ShiftHours(shift);
    var required := RequiredRestBreaks(hours);
    MealRecommendationMentionsMeal();
    RestRecommendationIsNotMeal(required);
  }

  /** The recorded breaks are never read: two shifts with the same length,
      employee and id get the same result. */
  lemma IgnoresBreaks(s1: Shift, s2: Shift)
    requires ShiftHours(s1) == ShiftHours(s2)
    requires s1.employeeId == s2.employeeId && s1.id == s2.id
    ensures CheckCompliance(s1) == CheckCompliance(s2)
  {
  }

  /** A three-hour shift needs no meal break and no rest break. */
  lemma ThreeHourShift(shift: Shift)
    requires shift.timeRange.end == shift.timeRange.start + 3 * HOUR_MS
    ensures CheckCompliance(shift).issues == []
    ensures CheckCompliance(shift).recommendations == []
    ensures CheckCompliance(shift).isCompliant
  {
  }

  /** An eight-hour shift gets the meal entry and the entry for two rest breaks. */
  lemma EightHourShift(shift: Shift)
    requires shift.timeRange.end == shift.timeRange.start + 8 * HOUR_MS
    ensures CheckCompliance(shift).recommendations == [MealRecommendation(), RestRecommendation(2)]
    ensures CheckCompliance(shift).issues == [MealIssue(ResultShiftId(shift)), RestIssue(2, ResultShiftId(shift))]
  {
  }
}
