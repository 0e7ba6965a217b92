/** The live side of the system: employees clock in and out, each clock-in
    turns the recommendations of the region's rule set for a synthetic
    eight-hour shift into timed break events, arms a reminder for each, and
    every change of the active-shift map is pushed to the subscribers. */
module EmployeeBreaks {
  import opened Types
  import opened Text
  import opened OrderedMap
  import opened BreakNotifications
  import CaliforniaRules
  import NewYorkRules
  import ComplianceService

  /** The rule set a clock-in is checked against. */
  datatype RuleSet = California | NewYork

  /** The length of the shift a clock-in is assumed to start. */
  const CLOCK_IN_SHIFT_HOURS: int := 8
  /** Break event i is due (i + 1) times this many hours after clock-in. */
  const BREAK_SPACING_HOURS: int := 2
  /** Event durations, in minutes; they are not the rule sets' own minimums. */
  const MEAL_EVENT_DURATION: int := 30
  const REST_EVENT_DURATION: int := 10

  /** `getRulesForState`: the lowercased region picks the rule set; anything
      else throws `Rules for state ${state} not implemented`. */
  function RulesForState(state: string): (r: Result<RuleSet>)
    ensures r.Fail? ==> r.failure == UnsupportedRegion(state)
    ensures r == Ok(California) <==> ToLower(state) == "ca" || ToLower(state) == "california"
    ensures r == Ok(NewYork) <==> ToLower(state) == "ny" || ToLower(state) == "new york"
  {
    var l := ToLower(state);
    if l == "ca" || l == "california" then Ok(California)
    else if l == "ny" || l == "new york" then Ok(NewYork)
    else Fail(UnsupportedRegion(state))
  }

  /** `rules.checkCompliance(shift)` for the chosen rule set. */
  function Check(rules: RuleSet, shift: Shift): Result<ComplianceResult> {
    match rules
    case California => CaliforniaRules.Evaluate(shift)
    case NewYork => Ok(NewYorkRules.CheckCompliance(shift))
  }

  /** The shift literal a clock-in builds: id `${employeeId}-${Date.now()}`,
      eight hours from the clock-in instant, and no `breaks` property. */
  function ClockInShift(event: ClockInEvent, now: Instant): (r: Shift)
    ensures r.employeeId == event.employeeId && r.breaks.None?
    ensures r.timeRange.start == event.timestamp && ShiftHours(r) == CLOCK_IN_SHIFT_HOURS
    ensures |r.id| > |event.employeeId| && r.id[..|event.employeeId| + 1] == event.employeeId + "-"
  {
    Shift(event.employeeId + "-" + IntToString(now), event.employeeId,
          TimeRange(event.timestamp, event.timestamp + CLOCK_IN_SHIFT_HOURS * HOUR_MS), None)
  }

  /** The event `generateBreakEvents` pushes for recommendation `rec` at `index`. */
  function MakeEvent(employeeId: EmployeeId, start: Instant, index: int, rec: string): BreakEvent {
    var meal := MentionsMeal(rec);
    BreakEvent(employeeId, if meal then Meal else Rest,
               start + (index + 1) * BREAK_SPACING_HOURS * HOUR_MS,
               if meal then MEAL_EVENT_DURATION else REST_EVENT_DURATION, !meal)
  }

  /** One event per recommendation, in order. */
  function BreakEvents(employeeId: EmployeeId, start: Instant, recommendations: seq<string>): (r: seq<BreakEvent>)
    ensures |r| == |recommendations|
    ensures forall i :: 0 <= i < |r| ==>
      && r[i].employeeId == employeeId
      && r[i].scheduledTime == start + (i + 1) * 2 * HOUR_MS
      && (r[i].breakType == Meal <==> MentionsMeal(recommendations[i]))
      && r[i].duration == (if r[i].breakType == Meal then 30 else 10)
      && r[i].isPaid == (r[i].breakType == Rest)
  {
    seq(|recommendations|, i requires 0 <= i < |recommendations| => MakeEvent(employeeId, start, i, recommendations[i]))
  }

  /** The compliance result a clock-in obtains for its synthetic shift, or
      what choosing or running the rule set throws. */
  function ClockInCompliance(event: ClockInEvent, now: Instant): (r: Result<ComplianceResult>)
    ensures RulesForState(event.state).Fail? ==> r == Fail(UnsupportedRegion(event.state))
    ensures RulesForState(event.state) == Ok(California) ==> r == Fail(BreaksUndefined)
    ensures RulesForState(event.state) == Ok(NewYork) ==>
      r == Ok(NewYorkRules.CheckCompliance(ClockInShift(event, now)))
  {
    match RulesForState(event.state)
    case Fail(f) => Fail(f)
    case Ok(rules) => Check(rules, ClockInShift(event, now))
  }

  /** The status a clock-in stores for the recommendations it obtained. */
  function ShiftStatus(event: ClockInEvent, recommendations: seq<string>): EmployeeShiftStatus {
    EmployeeShiftStatus(event.employeeId, event.timestamp,
                        BreakEvents(event.employeeId, event.timestamp, recommendations), [], event.state)
  }

  /** What a clock-in returns, or what it throws. */
  function ClockIn(event: ClockInEvent, now: Instant): (r: Result<EmployeeShiftStatus>)
    ensures r.Fail? <==> ClockInCompliance(event, now).Fail?
    ensures r.Fail? ==> r.failure == ClockInCompliance(event, now).failure
    ensures r.Ok? ==>
      && r.value.employeeId == event.employeeId
      && r.value.clockInTime == event.timestamp
      && r.value.completedBreaks == []
      && r.value.state == event.state
      && |r.value.requiredBreaks| == |ClockInCompliance(event, now).value.recommendations|
  {
    match ClockInCompliance(event, now)
    case Fail(f) => Fail(f)
    case Ok(result) => Ok(ShiftStatus(event, result.recommendations))
  }

  /** The identity of a subscribed callback; `filter(cb => cb !== callback)`
      compares identities. */
  type Subscriber = nat

  /** One call of a subscriber with a snapshot of the active shifts. */
  datatype Delivery = Delivery(subscriber: Subscriber, snapshot: seq<EmployeeShiftStatus>)

  /** `subscribers.forEach(cb => cb(snapshot))` */
  function FanOut(subscribers: seq<Subscriber>, snapshot: seq<EmployeeShiftStatus>): (r: seq<Delivery>)
    ensures |r| == |subscribers|
    ensures forall i :: 0 <= i < |r| ==> r[i] == Delivery(subscribers[i], snapshot)
    decreases |subscribers|
  {
    if subscribers == [] then []
    else FanOut(subscribers[..|subscribers| - 1], snapshot) + [Delivery(subscribers[|subscribers| - 1], snapshot)]
  }

  /** `subscribers.filter(cb => cb !== callback)` */
  function Without(subscribers: seq<Subscriber>, callback: Subscriber): (r: seq<Subscriber>)
    ensures |r| <= |subscribers|
    ensures forall i :: 0 <= i < |r| ==> r[i] != callback
    decreases |subscribers|
  {
    if subscribers == [] then []
    else if subscribers[0] == callback then Without(subscribers[1..], callback)
    else [subscribers[0]] + Without(subscribers[1..], callback)
  }

  // ---------------------------------------------------------------------------
  // Properties of region dispatch and of break-event generation

  /** Region names are compared without regard to letter case. */
  lemma RulesForStateCaseInsensitive(s1: string, s2: string)
    requires ToLower(s1) == ToLower(s2)
    ensures RulesForState(s1).Ok? == RulesForState(s2).Ok?
    ensures RulesForState(s1).Ok? ==> RulesForState(s1) == RulesForState(s2)
  {
  }

  lemma {:induction false} RegisteredNames()
    ensures RulesForState("CA") == Ok(California)
    ensures RulesForState("California") == Ok(California)
    ensures RulesForState("NY") == Ok(NewYork)
    ensures RulesForState("New York") == Ok(NewYork)
    ensures RulesForState("TX") == Fail(UnsupportedRegion("TX"))
  {
  }

  /** The clock-in path accepts every region the batch checker accepts, all
      with California's rules, and New York besides, which the batch checker
      rejects. */
  lemma BatchAcceptsFewer(state: string)
    ensures ComplianceService.IsCalifornia(state) <==> RulesForState(state) == Ok(California)
    ensures RulesForState(state) == Ok(NewYork) ==>
      ComplianceService.CheckCompliance(ScheduleInput(state, [])) == Fail(UnsupportedRegion(state))
  {
  }

  /** Break events are due in order, two hours apart, and all after clock-in. */
  lemma {:induction false} BreakEventsSpaced(employeeId: EmployeeId, start: Instant, recommendations: seq<string>, i: int, j: int)
    requires 0 <= i < j < |recommendations|
    ensures var r := BreakEvents(employeeId, start, recommendations);
      start < r[i].scheduledTime < r[j].scheduledTime
      && r[j].scheduledTime - r[i].scheduledTime == (j - i) * 2 * HOUR_MS
  {
  }

  // ---------------------------------------------------------------------------
  // Properties of clock-in

  /** An unsupported region throws before anything else happens. */
  lemma ClockInUnsupported(event: ClockInEvent, now: Instant)
    requires RulesForState(event.state).Fail?
    ensures ClockIn(event, now) == Fail(UnsupportedRegion(event.state))
  {
  }

  /** California's rules read `breaks` of the synthetic shift, which has none,
      so a California clock-in always throws. */
  lemma CaliforniaClockInFails(event: ClockInEvent, now: Instant)
    requires RulesForState(event.state) == Ok(California)
    ensures ClockIn(event, now) == Fail(BreaksUndefined)
  {
  }

  /** New York's advisory rules on an eight-hour shift recommend a meal break
      and two rest breaks, which become an unpaid 30-minute meal two hours in
      and a paid 10-minute rest four hours in. */
  lemma {:induction false} NewYorkClockIn(event: ClockInEvent, now: Instant)
    requires RulesForState(event.state) == Ok(NewYork)
    ensures ClockIn(event, now) == Ok(EmployeeShiftStatus(
      event.employeeId, event.timestamp,
      [BreakEvent(event.employeeId, Meal, event.timestamp + 2 * HOUR_MS, 30, false),
       BreakEvent(event.employeeId, Rest, event.timestamp + 4 * HOUR_MS, 10, true)],
      [], event.state))
  {
    var shift := ClockInShift(event, now);
    NewYorkRules.EightHourShift(shift);
    NewYorkRules.MealRecommendationMentionsMeal();
    NewYorkRules.RestRecommendationIsNotMeal(2);
    var recs := NewYorkRules.CheckCompliance(shift).recommendations;
    assert recs == [NewYorkRules.MealRecommendation(), NewYorkRules.RestRecommendation(2)];
    var evs := BreakEvents(event.employeeId, event.timestamp, recs);
    assert ClockInCompliance(event, now) == Ok(NewYorkRules.CheckCompliance(shift));
    assert ClockIn(event, now) == Ok(ShiftStatus(event, recs));
    assert |evs| == 2;
    assert evs[0] == BreakEvent(event.employeeId, Meal, event.timestamp + 2 * HOUR_MS, 30, false);
    assert evs[1] == BreakEvent(event.employeeId, Rest, event.timestamp + 4 * HOUR_MS, 10, true);
    assert evs == [evs[0], evs[1]];
  }

  /** Exactly the New York names lead to a successful clock-in. */
  lemma ClockInSucceedsIffNewYork(event: ClockInEvent, now: Instant)
    ensures ClockIn(event, now).Ok? <==> RulesForState(event.state) == Ok(NewYork)
  {
  }

  /** A clock-in arms one timer per break still in the future: a New York
      clock-in reported two or more hours late arms only the rest reminder,
      four or more hours late none. Timers the employee already had are kept
      in front of the new ones; clock-in never clears them. */
  lemma {:induction false} NewYorkClockInTimers(event: ClockInEvent, now: Instant, t: Timers)
    requires RulesForState(event.state) == Ok(NewYork)
    ensures var after := ScheduleAll(t, ClockIn(event, now).value.requiredBreaks, now);
      var before := Pending(t, event.employeeId);
      && |Pending(after, event.employeeId)| == |before| + (
           if now < event.timestamp + 2 * HOUR_MS then 2
           else if now < event.timestamp + 4 * HOUR_MS then 1
           else 0)
      && Pending(after, event.employeeId)[..|before|] == before
  {
    NewYorkClockIn(event, now);
    var evs := ClockIn(event, now).value.requiredBreaks;
    ScheduleAllPending(t, evs, now, event.employeeId);
    assert evs[..1] == [evs[0]] && [evs[0]][..0] == [];
  }

  /** Subscribing and then unsubscribing a new callback restores the list. */
  lemma {:induction false} SubscribeThenUnsubscribe(subscribers: seq<Subscriber>, callback: Subscriber)
    requires callback !in subscribers
    ensures Without(subscribers + [callback], callback) == subscribers
    decreases |subscribers|
  {
    if subscribers == [] {
      assert [callback][1..] == [];
    } else {
      assert (subscribers + [callback])[1..] == subscribers[1..] + [callback];
      SubscribeThenUnsubscribe(subscribers[1..], callback);
    }
  }

  /** Unsubscribing removes every registration of that callback and keeps the
      others, in order. */
  lemma {:induction false} WithoutKeepsOthers(subscribers: seq<Subscriber>, callback: Subscriber, other: Subscriber)
    requires other != callback
    ensures other in Without(subscribers, callback) <==> other in subscribers
    ensures callback !in subscribers ==> Without(subscribers, callback) == subscribers
    decreases |subscribers|
  {
    if subscribers != [] {
      WithoutKeepsOthers(subscribers[1..], callback, other);
      assert subscribers == [subscribers[0]] + subscribers[1..];
    }
  }

  /** Unsubscribing filters each part of the list on its own, so the
      callbacks that stay keep their relative order. */
  lemma {:induction false} WithoutAppend(a: seq<Subscriber>, b: seq<Subscriber>, callback: Subscriber)
    ensures Without(a + b, callback) == Without(a, callback) + Without(b, callback)
    decreases |a|
  {
    if a != [] {
      assert (a + b)[1..] == a[1..] + b;
      WithoutAppend(a[1..], b, callback);
    } else {
      assert a + b == b;
    }
  }

  /** Unsubscribing the first of three distinct callbacks leaves the other two,
      in order. */
  lemma UnsubscribeFirstOfThree(a: Subscriber, b: Subscriber, c: Subscriber)
    requires a != b && a != c
    ensures Without([a, b, c], a) == [b, c]
  {
    assert [a, b, c][1..] == [b, c] && [b, c][1..] == [c] && [c][1..] == [];
    assert Without([c], a) == [c] + Without([], a);
    assert Without([b, c], a) == [b] + Without([c], a);
  }

  // ---------------------------------------------------------------------------
  // The service object

  class EmployeeBreakService {
    /** `activeShifts`, keyed by employee, in insertion order. */
    var activeShifts: Entries<EmployeeId, EmployeeShiftStatus>
    var subscribers: seq<Subscriber>
    /** Every subscriber call made so far, in call order. */
    var deliveries: seq<Delivery>
    const notificationService: BreakNotificationService

    ghost predicate Valid()
      reads this, notificationService
    {
      DistinctKeys(activeShifts) && notificationService.Valid()
    }

    constructor (notificationService: BreakNotificationService)
      requires notificationService.Valid()
      ensures Valid()
      ensures this.notificationService == notificationService
      ensures activeShifts == [] && subscribers == [] && deliveries == []
    {
      this.notificationService := notificationService;
      activeShifts := [];
      subscribers := [];
      deliveries := [];
    }

    /** `getActiveShifts`: the statuses in the order their employees first
        clocked in. */
    function GetActiveShifts(): (r: seq<EmployeeShiftStatus>)
      reads this
      ensures |r| == |activeShifts|
      ensures forall i :: 0 <= i < |r| ==> r[i] == activeShifts[i].1
    {
      Values(activeShifts)
    }

    /** `subscribe(callback)`: register, then call it once with the current
        snapshot. Its returned handle is `Unsubscribe(callback)`. */
    method Subscribe(callback: Subscriber)
      modifies this`subscribers, this`deliveries
      ensures subscribers == old(subscribers) + [callback]
      ensures deliveries == old(deliveries) + [Delivery(callback, GetActiveShifts())]
    {
      subscribers := subscribers + [callback];
      deliveries := deliveries + [Delivery(callback, GetActiveShifts())];
    }

    method Unsubscribe(callback: Subscriber)
      modifies this`subscribers
      ensures subscribers == Without(old(subscribers), callback)
    {
      subscribers := Without(subscribers, callback);
    }

    /** `notifySubscribers`: one snapshot, taken once, to every subscriber. */
    method NotifySubscribers()
      modifies this`deliveries
      ensures deliveries == old(deliveries) + FanOut(subscribers, GetActiveShifts())
    {
      var statuses := GetActiveShifts();
      var i := 0;
      while i < |subscribers|
        invariant 0 <= i <= |subscribers|
        invariant deliveries == old(deliveries) + FanOut(subscribers[..i], statuses)
      {
        assert subscribers[..i + 1][..i] == subscribers[..i];
        deliveries := deliveries + [Delivery(subscribers[i], statuses)];
        i := i + 1;
      }
      assert subscribers[..i] == subscribers;
    }

    /** `generateBreakEvents` */
    method GenerateBreakEvents(employeeId: EmployeeId, startTime: Instant, recommendations: seq<string>)
      returns (breaks: seq<BreakEvent>)
      ensures breaks == BreakEvents(employeeId, startTime, recommendations)
    {
      breaks := [];
      var index := 0;
      while index < |recommendations|
        invariant 0 <= index <= |recommendations|
        invariant |breaks| == index
        invariant forall j :: 0 <= j < index ==> breaks[j] == MakeEvent(employeeId, startTime, j, recommendations[j])
      {
        var rec := recommendations[index];
        var isMeal := MentionsMeal(rec);
        var scheduledTime := startTime + (index + 1) * BREAK_SPACING_HOURS * HOUR_MS;
        breaks := breaks + [BreakEvent(employeeId, if isMeal then Meal else Rest, scheduledTime,
                                       if isMeal then MEAL_EVENT_DURATION else REST_EVENT_DURATION, !isMeal)];
        index := index + 1;
      }
    }

    /** `requiredBreaks.forEach(b => notificationService.scheduleNotification(b))` */
    method ScheduleBreaks(events: seq<BreakEvent>, now: Instant)
      requires notificationService.Valid()
      modifies notificationService
      ensures notificationService.Valid()
      ensures notificationService.State() == ScheduleAll(old(notificationService.State()), events, now)
      ensures notificationService.cancelled == old(notificationService.cancelled)
    {
      var i := 0;
      while i < |events|
        invariant 0 <= i <= |events|
        invariant notificationService.Valid()
        invariant notificationService.State() == ScheduleAll(old(notificationService.State()), events[..i], now)
        invariant notificationService.cancelled == old(notificationService.cancelled)
      {
        assert events[..i + 1][..i] == events[..i];
        notificationService.ScheduleNotification(events[i], now);
        i := i + 1;
      }
      assert events[..i] == events;
    }

    /** The first half of `handleClockIn`: choose the rules and check the
        synthetic shift; nothing changes. */
    method CheckClockIn(event: ClockInEvent, now: Instant) returns (r: Result<ComplianceResult>)
      ensures r == ClockInCompliance(event, now)
    {
      var rules := RulesForState(event.state);
      if rules.Fail? {
        return Fail(rules.failure);
      }
      var shift := ClockInShift(event, now);
      if rules.value == California {
        r := CaliforniaRules.CheckCompliance(shift);
      } else {
        r := Ok(NewYorkRules.CheckCompliance(shift));
      }
    }

    /** The second half of `handleClockIn`: store the status, arm its
        reminders, notify the subscribers. */
    method StartShift(event: ClockInEvent, recommendations: seq<string>, now: Instant)
      returns (shiftStatus: EmployeeShiftStatus)
      requires Valid()
      modifies this`activeShifts, this`deliveries, notificationService
      ensures Valid()
      ensures shiftStatus == ShiftStatus(event, recommendations)
      ensures subscribers == old(subscribers)
      ensures notificationService.cancelled == old(notificationService.cancelled)
      ensures activeShifts == Put(old(activeShifts), event.employeeId, shiftStatus)
      ensures notificationService.State() == ScheduleAll(old(notificationService.State()), shiftStatus.requiredBreaks, now)
      ensures deliveries == old(deliveries) + FanOut(subscribers, GetActiveShifts())
    {
      var requiredBreaks := GenerateBreakEvents(event.employeeId, event.timestamp, recommendations);
      shiftStatus := EmployeeShiftStatus(event.employeeId, event.timestamp, requiredBreaks, [], event.state);
      PutGet(activeShifts, event.employeeId, shiftStatus, event.employeeId);
      activeShifts := Put(activeShifts, event.employeeId, shiftStatus);
      ScheduleBreaks(requiredBreaks, now);
      NotifySubscribers();
    }

    /** `handleClockIn(event)`, with `now` the value of every `Date.now()` it
        reads. A throw leaves everything as it was. */
    method HandleClockIn(event: ClockInEvent, now: Instant) returns (r: Result<EmployeeShiftStatus>)
      requires Valid()
      modifies this`activeShifts, this`deliveries, notificationService
      ensures Valid()
      ensures r == ClockIn(event, now)
      ensures subscribers == old(subscribers)
      ensures notificationService.cancelled == old(notificationService.cancelled)
      ensures r.Fail? ==>
        && activeShifts == old(activeShifts)
        && deliveries == old(deliveries)
        && notificationService.State() == old(notificationService.State())
      ensures r.Ok? ==>
        && activeShifts == Put(old(activeShifts), event.employeeId, r.value)
        && notificationService.State() == ScheduleAll(old(notificationService.State()), r.value.requiredBreaks, now)
        && deliveries == old(deliveries) + FanOut(subscribers, GetActiveShifts())
    {
      var complianceResult := CheckClockIn(event, now);
      if complianceResult.Fail? {
        return Fail(complianceResult.failure);
      }
      var shiftStatus := StartShift(event, complianceResult.value.recommendations, now);
      r := Ok(shiftStatus);
    }

    /** `handleClockOut(employeeId)`: cancel the employee's timers, forget the
        employee, notify. An employee who is not clocked in is no error. */
    method HandleClockOut(employeeId: EmployeeId)
      requires Valid()
      modifies this`activeShifts, this`deliveries, notificationService
      ensures Valid()
      ensures subscribers == old(subscribers)
      ensures activeShifts == Remove(old(activeShifts), employeeId)
      ensures notificationService.State() == Clear(old(notificationService.State()), employeeId)
      ensures notificationService.cancelled ==
        old(notificationService.cancelled) + Pending(old(notificationService.State()), employeeId)
      ensures deliveries == old(deliveries) + FanOut(subscribers, GetActiveShifts())
    {
      notificationService.ClearNotifications(employeeId);
      RemoveGet(activeShifts, employeeId, employeeId);
      activeShifts := Remove(activeShifts, employeeId);
      NotifySubscribers();
    }
  }

  // ---------------------------------------------------------------------------
  // Properties of clock-out

  /** Clocking out twice leaves the map and the timers as clocking out once,
      and the second call cancels nothing. */
  lemma ClockOutIdempotent(m: Entries<EmployeeId, EmployeeShiftStatus>, t: Timers, employeeId: EmployeeId)
    ensures Remove(Remove(m, employeeId), employeeId) == Remove(m, employeeId)
    ensures Clear(Clear(t, employeeId), employeeId) == Clear(t, employeeId)
    ensures Pending(Clear(t, employeeId), employeeId) == []
  {
  }

  /** After a clock-in, the employee's status is the one returned; after a
      clock-out, the employee has none; other employees keep theirs. */
  lemma ClockInThenOut(m: Entries<EmployeeId, EmployeeShiftStatus>, status: EmployeeShiftStatus, other: EmployeeId)
    requires DistinctKeys(m) && other != status.employeeId
    ensures Get(Put(m, status.employeeId, status), status.employeeId) == Some(status)
    ensures Get(Put(m, status.employeeId, status), other) == Get(m, other)
    ensures Get(Remove(Put(m, status.employeeId, status), status.employeeId), status.employeeId) == None
    ensures Get(Remove(Put(m, status.employeeId, status), status.employeeId), other) == Get(m, other)
  {
    PutGet(m, status.employeeId, status, status.employeeId);
    PutGet(m, status.employeeId, status, other);
    RemoveGet(Put(m, status.employeeId, status), status.employeeId, other);
  }
}
