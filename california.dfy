/** California's rule set, in audit mode: the breaks actually taken on a shift
    are compared with what the shift's whole-hour length requires, and every
    shortfall is an error. */
module CaliforniaRules {
  import opened Types
  import opened Text

  const MEAL_BREAK_THRESHOLD: int := 5          // hours
  const SECOND_MEAL_BREAK_THRESHOLD: int := 10  // hours
  const REST_BREAK_INTERVAL: int := 4           // hours
  const MEAL_BREAK_DURATION: int := 30          // minutes
  const REST_BREAK_DURATION: int := 10          // minutes

  const MEAL_COUNT_REGULATION: string := "CA Meal Break Requirement"
  const REST_COUNT_REGULATION: string := "CA Rest Break Requirement"
  const MEAL_DURATION_REGULATION: string := "CA Meal Break Duration"
  const REST_DURATION_REGULATION: string := "CA Rest Break Duration"

  const MEAL_DURATION_MESSAGE: string := "Meal break duration less than required 30 minutes"
  const REST_DURATION_MESSAGE: string := "Rest break duration less than required 10 minutes"

  /** `getRequiredMealBreaks`: none up to 5 hours, one up to 10, two beyond. */
  function RequiredMealBreaks(hours: int): (r: int)
    ensures 0 <= r <= 2
    ensures r == 0 <==> hours <= 5
    ensures r == 2 <==> hours > 10
  {
    if hours <= MEAL_BREAK_THRESHOLD then 0
    else if hours <= SECOND_MEAL_BREAK_THRESHOLD then 1
    else 2
  }

  /** `Math.floor(hours / REST_BREAK_INTERVAL)`: one rest break per whole four hours. */
  function RequiredRestBreaks(hours: int): (r: int)
    ensures r * REST_BREAK_INTERVAL <= hours < (r + 1) * REST_BREAK_INTERVAL
    ensures hours >= 0 ==> r >= 0
  {
    hours / REST_BREAK_INTERVAL
  }

  /** `breaks.filter(b => b.type === t)` */
  function OfType(breaks: seq<Break>, t: BreakType): (r: seq<Break>)
    ensures |r| <= |breaks|
    ensures forall i :: 0 <= i < |r| ==> r[i].breakType == t
  {
    if breaks == [] then []
    else (if breaks[0].breakType == t then [breaks[0]] else []) + OfType(breaks[1..], t)
  }

  /** The filter keeps every break of type `t`, as often as it was recorded,
      and nothing else: `|OfType(breaks, t)|` is the number of such breaks taken. */
  lemma {:induction false} OfTypeKeepsAll(breaks: seq<Break>, t: BreakType)
    ensures forall b ::
      multiset(OfType(breaks, t))[b] == if b.breakType == t then multiset(breaks)[b] else 0
  {
    if breaks != [] {
      OfTypeKeepsAll(breaks[1..], t);
      assert breaks == [breaks[0]] + breaks[1..];
    }
  }

  /** Reference count, over the breaks as recorded: how many of type `t` are
      shorter than `minimum` minutes. */
  function CountShort(breaks: seq<Break>, t: BreakType, minimum: int): nat {
    if breaks == [] then 0
    else (if breaks[0].breakType == t && breaks[0].duration < minimum then 1 else 0)
         + CountShort(breaks[1..], t, minimum)
  }

  /** The `forEach` over one kind of break: one duration issue per break
      shorter than `minimum`, in the order of the breaks. */
  function DurationIssues(breaks: seq<Break>, minimum: int, message: string,
                          regulation: string, shiftId: string): (r: seq<ComplianceIssue>)
    ensures |r| <= |breaks|
    ensures forall i :: 0 <= i < |r| ==>
      r[i] == ComplianceIssue(Error, message, regulation, shiftId)
  {
    if breaks == [] then []
    else DurationIssues(breaks[..|breaks| - 1], minimum, message, regulation, shiftId)
         + (if breaks[|breaks| - 1].duration < minimum
            then [ComplianceIssue(Error, message, regulation, shiftId)] else [])
  }

  function MealCountIssue(required: int, found: int, shiftId: string): ComplianceIssue {
    ComplianceIssue(Error,
      "Missing required meal break(s). Need " + IntToString(required) + ", found " + IntToString(found),
      MEAL_COUNT_REGULATION, shiftId)
  }

  function RestCountIssue(required: int, found: int, shiftId: string): ComplianceIssue {
    ComplianceIssue(Error,
      "Missing required rest break(s). Need " + IntToString(required) + ", found " + IntToString(found),
      REST_COUNT_REGULATION, shiftId)
  }

  function MealRecommendation(required: int): string {
    "Schedule " + IntToString(required) + " meal break(s) of 30 minutes each"
  }

  function RestRecommendation(required: int): string {
    "Schedule " + IntToString(required) + " rest break(s) of 10 minutes each"
  }

  /** The count issues: meal shortfall first, then rest shortfall. */
  function CountIssues(shift: Shift, breaks: seq<Break>): seq<ComplianceIssue> {
    var hours := ShiftHours(shift);
    var requiredMeal := RequiredMealBreaks(hours);
    var requiredRest := RequiredRestBreaks(hours);
    var meals := OfType(breaks, Meal);
    var rests := OfType(breaks, Rest);
    (if |meals| < requiredMeal then [MealCountIssue(requiredMeal, |meals|, shift.id)] else [])
    + (if |rests| < requiredRest then [RestCountIssue(requiredRest, |rests|, shift.id)] else [])
  }

  /** The issues a shift with recorded `breaks` gets, in the order they are
      pushed: every one is an error raised against the shift. */
  function Issues(shift: Shift, breaks: seq<Break>): (r: seq<ComplianceIssue>)
    ensures ErrorsFor(r, shift.id)
  {
    var meals := OfType(breaks, Meal);
    var rests := OfType(breaks, Rest);
    var counts := CountIssues(shift, breaks);
    var c := DurationIssues(meals, MEAL_BREAK_DURATION, MEAL_DURATION_MESSAGE, MEAL_DURATION_REGULATION, shift.id);
    var d := DurationIssues(rests, REST_BREAK_DURATION, REST_DURATION_MESSAGE, REST_DURATION_REGULATION, shift.id);
    ErrorsForAppend(counts, c, shift.id);
    ErrorsForAppend(counts + c, d, shift.id);
    counts + c + d
  }

  /** The result object built from the shift's length and its issues: it is
      compliant exactly when there is no issue, and then it recommends nothing;
      otherwise it recommends a meal break and then a rest break, as the
      break-event generator's text test tells them apart. */
  function Assemble(hours: int, issues: seq<ComplianceIssue>): (r: ComplianceResult)
    ensures r.isCompliant <==> issues == []
    ensures r.issues == issues && r.shiftId == None
    ensures r.recommendations == [] <==> issues == []
    ensures issues != [] ==>
      && |r.recommendations| == 2
      && MentionsMeal(r.recommendations[0])
      && !MentionsMeal(r.recommendations[1])
  {
    MealRecommendationMentionsMeal(RequiredMealBreaks(hours));
    RestRecommendationIsNotMeal(RequiredRestBreaks(hours));
    ComplianceResult(
      |issues| == 0,
      issues,
      if |issues| > 0
      then [MealRecommendation(RequiredMealBreaks(hours)), RestRecommendation(RequiredRestBreaks(hours))]
      else [],
      None)
  }

  /** What `checkCompliance` returns for a shift, or the `TypeError` it throws
      when the shift has no `breaks`. */
  function Evaluate(shift: Shift): (r: Result<ComplianceResult>)
    ensures r.Ok? <==> shift.breaks.Some?
    ensures r.Fail? ==> r.failure == BreaksUndefined
  {
    match shift.breaks
    case None => Fail(BreaksUndefined)
    case Some(breaks) => Ok(Assemble(ShiftHours(shift), Issues(shift, breaks)))
  }

  /** `CaliforniaRules.checkCompliance`. */
  method CheckCompliance(shift: Shift) returns (r: Result<ComplianceResult>)
    ensures r == Evaluate(shift)
  {
    var hours := ShiftHours(shift);
    var requiredMeal := RequiredMealBreaks(hours);
    if shift.breaks.None? {
      return Fail(BreaksUndefined);
    }
    var breaks := shift.breaks.value;
    var meals := OfType(breaks, Meal);
    var issues: seq<ComplianceIssue> := [];
    if |meals| < requiredMeal {
      issues := issues + [MealCountIssue(requiredMeal, |meals|, shift.id)];
    }
    var requiredRest := RequiredRestBreaks(hours);
    var rests := OfType(breaks, Rest);
    if |rests| < requiredRest {
      issues := issues + [RestCountIssue(requiredRest, |rests|, shift.id)];
    }
    assert issues == CountIssues(shift, breaks);
    issues := PushDurationIssues(issues, meals, MEAL_BREAK_DURATION, MEAL_DURATION_MESSAGE, MEAL_DURATION_REGULATION, shift.id);
    issues := PushDurationIssues(issues, rests, REST_BREAK_DURATION, REST_DURATION_MESSAGE, REST_DURATION_REGULATION, shift.id);
    var recommendations: seq<string> := [];
    if |issues| > 0 {
      recommendations := recommendations + [MealRecommendation(requiredMeal), RestRecommendation(requiredRest)];
    }
    r := Ok(ComplianceResult(|issues| == 0, issues, recommendations, None));
    assert issues == Issues(shift, breaks);
    assert r.value == Assemble(hours, issues);
  }

  /** The `forEach` that pushes one duration issue onto `issues` for every break
      shorter than `minimum`. */
  method PushDurationIssues(issues: seq<ComplianceIssue>, breaks: seq<Break>, minimum: int,
                            message: string, regulation: string, shiftId: string)
    returns (out: seq<ComplianceIssue>)
    ensures out == issues + DurationIssues(breaks, minimum, message, regulation, shiftId)
  {
    out := issues;
    var i := 0;
    while i < |breaks|
      invariant 0 <= i <= |breaks|
      invariant out == issues + DurationIssues(breaks[..i], minimum, message, regulation, shiftId)
    {
      assert breaks[..i + 1] == breaks[..i] + [breaks[i]];
      DurationIssuesSnoc(breaks[..i], breaks[i], minimum, message, regulation, shiftId);
      if breaks[i].duration < minimum {
        var issue := [ComplianceIssue(Error, message, regulation, shiftId)];
        ghost var done := DurationIssues(breaks[..i], minimum, message, regulation, shiftId);
        assert issues + done + issue == issues + (done + issue);
        out := out + issue;
      }
      i := i + 1;
    }
    assert breaks[..i] == breaks;
  }

  /** One more break of a kind adds at most its own duration issue, at the end. */
  lemma DurationIssuesSnoc(breaks: seq<Break>, b: Break, minimum: int, message: string,
                           regulation: string, shiftId: string)
    ensures DurationIssues(breaks + [b], minimum, message, regulation, shiftId)
            == DurationIssues(breaks, minimum, message, regulation, shiftId)
               + (if b.duration < minimum then [ComplianceIssue(Error, message, regulation, shiftId)] else [])
  {
  }

  // ---------------------------------------------------------------------------
  // Properties of the rule set

  /** The meal-break requirement only grows with the shift's length. */
  lemma RequiredMealBreaksMonotone(h1: int, h2: int)
    requires h1 <= h2
    ensures RequiredMealBreaks(h1) <= RequiredMealBreaks(h2)
  {
  }

  lemma {:induction false} DurationIssuesCount(breaks: seq<Break>, t: BreakType, minimum: int,
                                               message: string, regulation: string, shiftId: string)
    ensures |DurationIssues(OfType(breaks, t), minimum, message, regulation, shiftId)|
            == CountShort(breaks, t, minimum)
  {
    if breaks != [] {
      DurationIssuesCount(breaks[1..], t, minimum, message, regulation, shiftId);
      var head := if breaks[0].breakType == t then [breaks[0]] else [];
      DurationIssuesAppend(head, OfType(breaks[1..], t), minimum, message, regulation, shiftId);
    }
  }

  lemma {:induction false} DurationIssuesAppend(a: seq<Break>, b: seq<Break>, minimum: int,
                                                message: string, regulation: string, shiftId: string)
    ensures DurationIssues(a + b, minimum, message, regulation, shiftId)
            == DurationIssues(a, minimum, message, regulation, shiftId)
               + DurationIssues(b, minimum, message, regulation, shiftId)
  {
    if b == [] {
      assert a + b == a;
    } else {
      var b' := b[..|b| - 1];
      assert (a + b)[..|a + b| - 1] == a + b';
      DurationIssuesAppend(a, b', minimum, message, regulation, shiftId);
    }
  }

  /** No break of type `t` is shorter than `minimum` exactly when the count is zero. */
  lemma {:induction false} CountShortZero(breaks: seq<Break>, t: BreakType, minimum: int)
    ensures CountShort(breaks, t, minimum) == 0 <==>
      forall i :: 0 <= i < |breaks| && breaks[i].breakType == t ==> breaks[i].duration >= minimum
  {
    if breaks != [] {
      CountShortZero(breaks[1..], t, minimum);
      assert forall i :: 0 < i < |breaks| ==> breaks[i] == breaks[1..][i - 1];
    }
  }

  /** Every issue of `issues` is an error raised against shift `shiftId`. */
  predicate ErrorsFor(issues: seq<ComplianceIssue>, shiftId: string) {
    forall i :: 0 <= i < |issues| ==> issues[i].issueType == Error && issues[i].shiftId == shiftId
  }

  lemma ErrorsForAppend(a: seq<ComplianceIssue>, b: seq<ComplianceIssue>, shiftId: string)
    requires ErrorsFor(a, shiftId) && ErrorsFor(b, shiftId)
    ensures ErrorsFor(a + b, shiftId)
  {
  }

  /** Every issue is an error carrying the shift's id, and there are as many as
      the two count shortfalls plus the too-short breaks of each kind. */
  lemma IssuesShape(shift: Shift, breaks: seq<Break>)
    ensures ErrorsFor(Issues(shift, breaks), shift.id)
    ensures var hours := ShiftHours(shift);
      |Issues(shift, breaks)| == (if |OfType(breaks, Meal)| < RequiredMealBreaks(hours) then 1 else 0)
                                 + (if |OfType(breaks, Rest)| < RequiredRestBreaks(hours) then 1 else 0)
                                 + CountShort(breaks, Meal, MEAL_BREAK_DURATION)
                                 + CountShort(breaks, Rest, REST_BREAK_DURATION)
  {
    var hours := ShiftHours(shift);
    var requiredMeal := RequiredMealBreaks(hours);
    var requiredRest := RequiredRestBreaks(hours);
    var meals := OfType(breaks, Meal);
    var rests := OfType(breaks, Rest);
    var a := if |meals| < requiredMeal then [MealCountIssue(requiredMeal, |meals|, shift.id)] else [];
    var b := if |rests| < requiredRest then [RestCountIssue(requiredRest, |rests|, shift.id)] else [];
    var c := DurationIssues(meals, MEAL_BREAK_DURATION, MEAL_DURATION_MESSAGE, MEAL_DURATION_REGULATION, shift.id);
    var d := DurationIssues(rests, REST_BREAK_DURATION, REST_DURATION_MESSAGE, REST_DURATION_REGULATION, shift.id);
    assert Issues(shift, breaks) == a + b + c + d;
    ErrorsForAppend(a, b, shift.id);
    ErrorsForAppend(a + b, c, shift.id);
    ErrorsForAppend(a + b + c, d, shift.id);
    DurationIssuesCount(breaks, Meal, MEAL_BREAK_DURATION, MEAL_DURATION_MESSAGE, MEAL_DURATION_REGULATION, shift.id);
    DurationIssuesCount(breaks, Rest, REST_BREAK_DURATION, REST_DURATION_MESSAGE, REST_DURATION_REGULATION, shift.id);
  }

  /** Some issue of `issues` is filed under `regulation`. */
  predicate HasIssue(issues: seq<ComplianceIssue>, regulation: string) {
    exists i :: 0 <= i < |issues| && issues[i].regulation == regulation
  }

  /** A meal-count issue is filed exactly when fewer meal breaks were taken than
      required, and a rest-count issue exactly when fewer rest breaks were. */
  lemma ShortfallIssues(shift: Shift, breaks: seq<Break>)
    ensures var hours := ShiftHours(shift);
      && (HasIssue(Issues(shift, breaks), MEAL_COUNT_REGULATION)
          <==> |OfType(breaks, Meal)| < RequiredMealBreaks(hours))
      && (HasIssue(Issues(shift, breaks), REST_COUNT_REGULATION)
          <==> |OfType(breaks, Rest)| < RequiredRestBreaks(hours))
  {
    var counts := CountIssues(shift, breaks);
    var c: seq<ComplianceIssue> := DurationIssues(OfType(breaks, Meal), MEAL_BREAK_DURATION, MEAL_DURATION_MESSAGE, MEAL_DURATION_REGULATION, shift.id);
    var d: seq<ComplianceIssue> := DurationIssues(OfType(breaks, Rest), REST_BREAK_DURATION, REST_DURATION_MESSAGE, REST_DURATION_REGULATION, shift.id);
    assert Issues(shift, breaks) == counts + (c + d);
    assert |MEAL_COUNT_REGULATION| != |MEAL_DURATION_REGULATION| == |REST_DURATION_REGULATION|;
    assert |REST_COUNT_REGULATION| == |MEAL_COUNT_REGULATION|;
    assert MEAL_COUNT_REGULATION[3] != REST_COUNT_REGULATION[3];
    forall i | 0 <= i < |c + d|
      ensures (c + d)[i].regulation != MEAL_COUNT_REGULATION
      ensures (c + d)[i].regulation != REST_COUNT_REGULATION
    {
      if i < |c| {
        assert (c + d)[i] == c[i];
      } else {
        assert (c + d)[i] == d[i - |c|];
      }
    }
    assert !HasIssue(c + d, MEAL_COUNT_REGULATION) && !HasIssue(c + d, REST_COUNT_REGULATION);
    HasIssueAppend(counts, c + d, MEAL_COUNT_REGULATION);
    HasIssueAppend(counts, c + d, REST_COUNT_REGULATION);
    CountIssuesFiled(shift, breaks);
  }

  lemma CountIssuesFiled(shift: Shift, breaks: seq<Break>)
    ensures var hours := ShiftHours(shift);
      && (HasIssue(CountIssues(shift, breaks), MEAL_COUNT_REGULATION)
          <==> |OfType(breaks, Meal)| < RequiredMealBreaks(hours))
      && (HasIssue(CountIssues(shift, breaks), REST_COUNT_REGULATION)
          <==> |OfType(breaks, Rest)| < RequiredRestBreaks(hours))
  {
    var hours := ShiftHours(shift);
    var requiredMeal := RequiredMealBreaks(hours);
    var requiredRest := RequiredRestBreaks(hours);
    var meals := OfType(breaks, Meal);
    var rests := OfType(breaks, Rest);
    var a := if |meals| < requiredMeal then [MealCountIssue(requiredMeal, |meals|, shift.id)] else [];
    var b := if |rests| < requiredRest then [RestCountIssue(requiredRest, |rests|, shift.id)] else [];
    assert CountIssues(shift, breaks) == a + b;
    assert MEAL_COUNT_REGULATION[3] != REST_COUNT_REGULATION[3];
    if a != [] {
      assert a[0].regulation == MEAL_COUNT_REGULATION;
      assert !HasIssue(a, REST_COUNT_REGULATION);
      assert HasIssue(a, MEAL_COUNT_REGULATION);
    }
    if b != [] {
      assert b[0].regulation == REST_COUNT_REGULATION;
      assert !HasIssue(b, MEAL_COUNT_REGULATION);
      assert HasIssue(b, REST_COUNT_REGULATION);
    }
    HasIssueAppend(a, b, MEAL_COUNT_REGULATION);
    HasIssueAppend(a, b, REST_COUNT_REGULATION);
  }

  lemma HasIssueAppend(a: seq<ComplianceIssue>, b: seq<ComplianceIssue>, regulation: string)
    ensures HasIssue(a + b, regulation) <==> HasIssue(a, regulation) || HasIssue(b, regulation)
  {
    if HasIssue(a + b, regulation) {
      var i :| 0 <= i < |a + b| && (a + b)[i].regulation == regulation;
      if i >= |a| {
        assert b[i - |a|] == (a + b)[i];
      }
    }
    if HasIssue(a, regulation) {
      var i :| 0 <= i < |a| && a[i].regulation == regulation;
      assert (a + b)[i] == a[i];
    }
    if HasIssue(b, regulation) {
      var i :| 0 <= i < |b| && b[i].regulation == regulation;
      assert (a + b)[|a| + i] == b[i];
    }
  }

  /** Audit mode: a shift with recorded breaks is compliant exactly when no issue
      was filed, which is exactly when both counts meet their requirements and
      no meal break is under 30 minutes and no rest break under 10. */
  lemma {:induction false} CompliantIff(shift: Shift)
    requires shift.breaks.Some?
    ensures var r := Evaluate(shift); var breaks := shift.breaks.value;
      var hours := ShiftHours(shift);
      && r.Ok?
      && (r.value.isCompliant <==> r.value.issues == [])
      && (r.value.isCompliant <==>
           && |OfType(breaks, Meal)| >= RequiredMealBreaks(hours)
           && |OfType(breaks, Rest)| >= RequiredRestBreaks(hours)
           && (forall i :: 0 <= i < |breaks| && breaks[i].breakType == Meal ==> breaks[i].duration >= MEAL_BREAK_DURATION)
           && (forall i :: 0 <= i < |breaks| && breaks[i].breakType == Rest ==> breaks[i].duration >= REST_BREAK_DURATION))
  {
    var breaks := shift.breaks.value;
    IssuesShape(shift, breaks);
    CountShortZero(breaks, Meal, MEAL_BREAK_DURATION);
    CountShortZero(breaks, Rest, REST_BREAK_DURATION);
  }

  /** The recommendations are empty when there is no issue, and otherwise are
      a meal recommendation followed by a rest recommendation, as the
      break-event generator's text test classifies them. */
  lemma {:induction false} Recommendations(shift: Shift)
    requires shift.breaks.Some?
    ensures var r := Evaluate(shift).value;
      && (r.recommendations == [] <==> r.issues == [])
      && (r.issues != [] ==>
           |r.recommendations| == 2
           && MentionsMeal(r.recommendations[0])
           && !MentionsMeal(r.recommendations[1]))
  {
  }

  lemma MealRecommendationMentionsMeal(n: int)
    ensures MentionsMeal(MealRecommendation(n))
  {
    var r := MealRecommendation(n);
    var i := |"Schedule " + IntToString(n)| + 1;
    assert r[i] == 'm' && r[i + 1] == 'e' && r[i + 2] == 'a' && r[i + 3] == 'l';
    MealAt(r, i);
  }

  lemma RestRecommendationIsNotMeal(n: int)
    ensures !MentionsMeal(RestRecommendation(n))
  {
    var head := "Schedule " + IntToString(n) + " rest break(s) of 10 ";
    var tail: string := "nutes each";
    IntToStringHasNoM(n);
    assert 'm' !in head && 'M' !in head by {
      assert head == "Schedule " + IntToString(n) + " rest break(s) of 10 ";
    }
    NoMealLeadingM('m', 'i', tail);
    assert RestRecommendation(n) == head + (['m', 'i'] + tail);
    NoMealPrefix(head, ['m', 'i'] + tail);
  }

  /** An eight-hour shift with no breaks needs one meal and two rest breaks,
      gets exactly the two count issues, and is not compliant. */
  lemma EightHourShiftWithoutBreaks(id: string, employeeId: EmployeeId, start: Instant)
    ensures var shift := Shift(id, employeeId, TimeRange(start, start + 8 * HOUR_MS), Some([]));
      var r := Evaluate(shift);
      && RequiredMealBreaks(ShiftHours(shift)) == 1
      && RequiredRestBreaks(ShiftHours(shift)) == 2
      && r.Ok?
      && r.value.issues == [MealCountIssue(1, 0, id), RestCountIssue(2, 0, id)]
      && !r.value.isCompliant
      && r.value.recommendations == [MealRecommendation(1), RestRecommendation(2)]
  {
  }
}
