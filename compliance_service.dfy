/** The batch checker: resolves the schedule's region to a rule set and maps
    every shift through it. Only California is registered here. */
module ComplianceService {
  import opened Types
  import opened Text
  import CaliforniaRules

  /** The region names the batch checker registers, compared after `toLowerCase`. */
  predicate IsCalifornia(state: string) {
    ToLower(state) == "ca" || ToLower(state) == "california"
  }

  /** `shifts.map(shift => CaliforniaRules.checkCompliance(shift))`: a shift
      without `breaks` throws and aborts the whole map. The only thing a shift
      can throw is that `TypeError`, so which shift threw need not be tracked. */
  function EvaluateAll(shifts: seq<Shift>): (r: Result<seq<ComplianceResult>>)
    ensures r.Ok? <==> forall i :: 0 <= i < |shifts| ==> shifts[i].breaks.Some?
    ensures r.Fail? ==> r.failure == BreaksUndefined
    ensures r.Ok? ==> (|r.value| == |shifts|
      && forall i :: 0 <= i < |shifts| ==> CaliforniaRules.Evaluate(shifts[i]) == Ok(r.value[i]))
  {
    if forall i :: 0 <= i < |shifts| ==> shifts[i].breaks.Some? then
      Ok(seq(|shifts|, i requires 0 <= i < |shifts| => CaliforniaRules.Evaluate(shifts[i]).value))
    else
      Fail(BreaksUndefined)
  }

  /** `ComplianceService.checkCompliance`: an unregistered region fails before
      any shift is looked at. */
  function CheckCompliance(input: ScheduleInput): (r: Result<seq<ComplianceResult>>)
    ensures !IsCalifornia(input.state) ==> r == Fail(UnsupportedRegion(input.state))
    ensures IsCalifornia(input.state) && (forall i :: 0 <= i < |input.shifts| ==> input.shifts[i].breaks.Some?) ==>
      (r.Ok? && |r.value| == |input.shifts|
       && forall i :: 0 <= i < |input.shifts| ==> CaliforniaRules.Evaluate(input.shifts[i]) == Ok(r.value[i]))
    ensures IsCalifornia(input.state) && (exists i :: 0 <= i < |input.shifts| && input.shifts[i].breaks.None?) ==>
      r == Fail(BreaksUndefined)
  {
    if IsCalifornia(input.state) then EvaluateAll(input.shifts)
    else Fail(UnsupportedRegion(input.state))
  }

  // ---------------------------------------------------------------------------
  // Properties of the batch checker

  /** Region names are compared without regard to letter case. */
  lemma CaseInsensitive(s1: string, s2: string, shifts: seq<Shift>)
    requires ToLower(s1) == ToLower(s2)
    ensures CheckCompliance(ScheduleInput(s1, shifts)).Ok? == CheckCompliance(ScheduleInput(s2, shifts)).Ok?
    ensures IsCalifornia(s1) ==> CheckCompliance(ScheduleInput(s1, shifts)) == CheckCompliance(ScheduleInput(s2, shifts))
  {
  }

  lemma {:induction false} UpperCaseCaAccepted()
    ensures IsCalifornia("CA")
  {
  }

  /** New York is not registered for batch checks, whatever the shifts. */
  lemma {:induction false} NewYorkRejected(shifts: seq<Shift>)
    ensures CheckCompliance(ScheduleInput("ny", shifts)) == Fail(UnsupportedRegion("ny"))
    ensures CheckCompliance(ScheduleInput("NY", shifts)) == Fail(UnsupportedRegion("NY"))
  {
    assert ToLower("ny")[0] == 'n';
    assert ToLower("NY")[0] == 'n';
  }

  lemma {:induction false} TexasRejected(shifts: seq<Shift>)
    ensures CheckCompliance(ScheduleInput("TX", shifts)) == Fail(UnsupportedRegion("TX"))
  {
    assert ToLower("TX")[0] == 't';
  }
}
