/** The per-employee reminder timers. A timer is armed only for a break that
    is still in the future; clocking out cancels every timer of the employee
    and forgets the employee. Timer handles are opaque: the service only stores
    them and hands them back to `clearTimeout`. */
module BreakNotifications {
  import opened Types

  /** What `setTimeout` returns; the service compares handles for nothing. */
  type TimerHandle = nat

  /** The service's state: `scheduledNotifications`, and the handle the next
      `setTimeout` call will return. */
  datatype Timers = Timers(lists: map<EmployeeId, seq<TimerHandle>>, next: TimerHandle)

  /** `setTimeout` is called exactly when `scheduledTime - Date.now()` is positive. */
  predicate Arms(event: BreakEvent, now: Instant) {
    event.scheduledTime - now > 0
  }

  /** `scheduledNotifications.get(employeeId) || []` */
  function Pending(t: Timers, employeeId: EmployeeId): seq<TimerHandle> {
    if employeeId in t.lists then t.lists[employeeId] else []
  }

  /** Every stored list is non-empty, strictly increasing (handles are issued
      in order) and made of handles already issued. */
  ghost predicate WellFormed(t: Timers) {
    forall k :: k in t.lists ==>
      && t.lists[k] != []
      && (forall i, j :: 0 <= i < j < |t.lists[k]| ==> t.lists[k][i] < t.lists[k][j])
      && (forall i :: 0 <= i < |t.lists[k]| ==> t.lists[k][i] < t.next)
  }

  /** `scheduleNotification(event)` at time `now`. */
  function Schedule(t: Timers, event: BreakEvent, now: Instant): (r: Timers)
    ensures !Arms(event, now) ==> r == t
    ensures Arms(event, now) ==>
      && r.next == t.next + 1
      && r.lists.Keys == t.lists.Keys + {event.employeeId}
      && Pending(r, event.employeeId) == Pending(t, event.employeeId) + [t.next]
      && forall k :: k != event.employeeId ==> Pending(r, k) == Pending(t, k)
  {
    if Arms(event, now) then
      Timers(t.lists[event.employeeId := Pending(t, event.employeeId) + [t.next]], t.next + 1)
    else
      t
  }

  /** `clearNotifications(employeeId)`: the key is gone, nothing else moves. */
  function Clear(t: Timers, employeeId: EmployeeId): (r: Timers)
    ensures r.next == t.next
    ensures r.lists.Keys == t.lists.Keys - {employeeId}
    ensures Pending(r, employeeId) == []
    ensures forall k :: k != employeeId ==> Pending(r, k) == Pending(t, k)
  {
    Timers(t.lists - {employeeId}, t.next)
  }

  /** `events.forEach(e => scheduleNotification(e))`, all at the same `now`. */
  function ScheduleAll(t: Timers, events: seq<BreakEvent>, now: Instant): (r: Timers)
    ensures t.next <= r.next <= t.next + |events|
    ensures t.lists.Keys <= r.lists.Keys
    ensures forall k :: k in r.lists.Keys - t.lists.Keys ==>
      exists i :: 0 <= i < |events| && events[i].employeeId == k && Arms(events[i], now)
    decreases |events|
  {
    if events == [] then t
    else
      var init := events[..|events| - 1];
      var last := events[|events| - 1];
      var mid := ScheduleAll(t, init, now);
      assert forall k :: k in Schedule(mid, last, now).lists.Keys - t.lists.Keys ==>
        exists i :: 0 <= i < |events| && events[i].employeeId == k && Arms(events[i], now)
      by {
        forall k | k in Schedule(mid, last, now).lists.Keys - t.lists.Keys
          ensures exists i :: 0 <= i < |events| && events[i].employeeId == k && Arms(events[i], now)
        {
          if k in mid.lists.Keys {
            assert k in mid.lists.Keys - t.lists.Keys;
            var i :| 0 <= i < |init| && init[i].employeeId == k && Arms(init[i], now);
            assert events[i] == init[i];
          } else {
            assert events[|events| - 1] == last;
          }
        }
      }
      Schedule(mid, last, now)
  }

  /** How many of `events` belong to `employeeId` and arm a timer at `now`. */
  function ArmedFor(events: seq<BreakEvent>, employeeId: EmployeeId, now: Instant): (n: nat)
    ensures n <= |events|
    ensures n == 0 <==>
      forall i :: 0 <= i < |events| && events[i].employeeId == employeeId ==> !Arms(events[i], now)
    ensures n == |events| <==>
      forall i :: 0 <= i < |events| ==> events[i].employeeId == employeeId && Arms(events[i], now)
    decreases |events|
  {
    if events == [] then 0
    else
      var last := events[|events| - 1];
      ArmedFor(events[..|events| - 1], employeeId, now)
      + (if last.employeeId == employeeId && Arms(last, now) then 1 else 0)
  }

  // ---------------------------------------------------------------------------
  // Properties of the timer map

  lemma SchedulePreservesWellFormed(t: Timers, event: BreakEvent, now: Instant)
    requires WellFormed(t)
    ensures WellFormed(Schedule(t, event, now))
  {
  }

  lemma ClearPreservesWellFormed(t: Timers, employeeId: EmployeeId)
    requires WellFormed(t)
    ensures WellFormed(Clear(t, employeeId))
  {
  }

  /** Clearing twice is clearing once, and the second call cancels nothing. */
  lemma ClearIdempotent(t: Timers, employeeId: EmployeeId)
    ensures Clear(Clear(t, employeeId), employeeId) == Clear(t, employeeId)
    ensures Pending(Clear(t, employeeId), employeeId) == []
  {
  }

  /** Clearing an employee with no entry changes nothing. */
  lemma ClearAbsent(t: Timers, employeeId: EmployeeId)
    requires employeeId !in t.lists
    ensures Clear(t, employeeId) == t
  {
  }

  /** Whatever an employee had scheduled, clearing afterwards leaves the map as
      clearing alone would. */
  lemma ClearAfterSchedule(t: Timers, event: BreakEvent, now: Instant)
    ensures Clear(Schedule(t, event, now), event.employeeId).lists == Clear(t, event.employeeId).lists
  {
  }

  lemma {:induction false} ScheduleAllPreservesWellFormed(t: Timers, events: seq<BreakEvent>, now: Instant)
    requires WellFormed(t)
    ensures WellFormed(ScheduleAll(t, events, now))
    decreases |events|
  {
    if events != [] {
      ScheduleAllPreservesWellFormed(t, events[..|events| - 1], now);
      SchedulePreservesWellFormed(ScheduleAll(t, events[..|events| - 1], now), events[|events| - 1], now);
    }
  }

  /** Scheduling a batch keeps every timer an employee already had, in front
      of the new ones, and adds one handle per armed event of that employee. */
  lemma {:induction false} ScheduleAllPending(t: Timers, events: seq<BreakEvent>, now: Instant, employeeId: EmployeeId)
    ensures var r := ScheduleAll(t, events, now);
      && |Pending(r, employeeId)| == |Pending(t, employeeId)| + ArmedFor(events, employeeId, now)
      && Pending(r, employeeId)[..|Pending(t, employeeId)|] == Pending(t, employeeId)
    decreases |events|
  {
    if events != [] {
      var init := events[..|events| - 1];
      var mid := ScheduleAll(t, init, now);
      ScheduleAllPending(t, init, now, employeeId);
      var last := events[|events| - 1];
      if last.employeeId == employeeId && Arms(last, now) {
        var p := Pending(mid, employeeId);
        assert Pending(ScheduleAll(t, events, now), employeeId) == p + [mid.next];
        assert (p + [mid.next])[..|Pending(t, employeeId)|] == p[..|Pending(t, employeeId)|];
      }
    }
  }

  /** An employee none of whose breaks are in the future gets no timer. */
  lemma {:induction false} ScheduleAllNoneArmed(t: Timers, events: seq<BreakEvent>, now: Instant)
    requires forall i :: 0 <= i < |events| ==> !Arms(events[i], now)
    ensures ScheduleAll(t, events, now) == t
    decreases |events|
  {
    if events != [] {
      ScheduleAllNoneArmed(t, events[..|events| - 1], now);
    }
  }

  /** Employees without events in the batch keep their timers exactly. */
  lemma {:induction false} ScheduleAllOthers(t: Timers, events: seq<BreakEvent>, now: Instant, k: EmployeeId)
    requires forall i :: 0 <= i < |events| ==> events[i].employeeId != k
    ensures Pending(ScheduleAll(t, events, now), k) == Pending(t, k)
    decreases |events|
  {
    if events != [] {
      ScheduleAllOthers(t, events[..|events| - 1], now, k);
    }
  }

  // ---------------------------------------------------------------------------
  // The service object

  class BreakNotificationService {
    var scheduledNotifications: map<EmployeeId, seq<TimerHandle>>
    /** The handle the next `setTimeout` call returns. */
    var nextHandle: TimerHandle
    /** Every handle passed to `clearTimeout`, in call order. */
    var cancelled: seq<TimerHandle>

    function State(): Timers
      reads this
    {
      Timers(scheduledNotifications, nextHandle)
    }

    ghost predicate Valid()
      reads this
    {
      WellFormed(State())
    }

    constructor ()
      ensures Valid()
      ensures scheduledNotifications == map[] && cancelled == []
    {
      scheduledNotifications := map[];
      nextHandle := 0;
      cancelled := [];
    }

    method ScheduleNotification(event: BreakEvent, now: Instant)
      requires Valid()
      modifies this
      ensures Valid()
      ensures State() == Schedule(old(State()), event, now)
      ensures cancelled == old(cancelled)
    {
      SchedulePreservesWellFormed(State(), event, now);
      ghost var expected := Schedule(State(), event, now);
      var notificationTime := event.scheduledTime - now;
      if notificationTime > 0 {
        var timeout := nextHandle;
        nextHandle := nextHandle + 1;
        var employeeNotifications := if event.employeeId in scheduledNotifications
          then scheduledNotifications[event.employeeId] else [];
        employeeNotifications := employeeNotifications + [timeout];
        scheduledNotifications := scheduledNotifications[event.employeeId := employeeNotifications];
      }
      assert State() == expected;
    }

    method ClearNotifications(employeeId: EmployeeId)
      requires Valid()
      modifies this
      ensures Valid()
      ensures State() == Clear(old(State()), employeeId)
      ensures cancelled == old(cancelled) + Pending(old(State()), employeeId)
    {
      ClearPreservesWellFormed(State(), employeeId);
      if employeeId in scheduledNotifications {
        var notifications := scheduledNotifications[employeeId];
        var i := 0;
        while i < |notifications|
          invariant 0 <= i <= |notifications|
          invariant cancelled == old(cancelled) + notifications[..i]
          invariant State() == old(State())
        {
          cancelled := cancelled + [notifications[i]];
          i := i + 1;
          assert notifications[..i] == notifications[..i - 1] + [notifications[i - 1]];
        }
        assert notifications[..i] == notifications;
        scheduledNotifications := scheduledNotifications - {employeeId};
      } else {
        ClearAbsent(State(), employeeId);
      }
    }
  }
}
