// When a running linear saga can take in the result of its active action.
module LinearProgress {
  import opened Wrappers
  import opened Domain
  import opened SagaDefinition
  import opened Identifiers
  import opened LinearEngine
  import opened LinearInvariants
  import opened LinearMoves
  import opened LinearCompensation
  import opened LinearTermination
  import opened LinearReplay

  // A compensation that may retry, but only after a delay, and has attempts left.
  ghost predicate Blocked(d: LinearSagaDefinition, p: LinearSagaProjection, result: ActionResult) {
    && p.status == Compensating && result == RetryableFailure
    && p.compensableStepIndices != [] && Top(p.compensableStepIndices) < |d.steps|
    && var plan := d.steps[Top(p.compensableStepIndices)].compensation;
    && plan.Some? && plan.value.retryPolicy.backoff.Some?
    && p.currentAttempt + 1 < plan.value.retryPolicy.maxAttempts
  }

  // The active action's result, offered with a fresh next identity and at a time
  // whose retry delay is representable.
  ghost predicate WellOffered(s: Instance, p: LinearSagaProjection, request: RetryTimerScheduleRequest) {
    && Working(p) && p.retryDueAt.None?
    && p.activeActionId == Some(request.observation.actionId)
    && request.nextActionId.Some? && request.nextActionId.value !in p.issuedActionIds
    && p.nextStepIndex < |s.definition.steps|
    && RetryDueAt(s.definition.steps[p.nextStepIndex].retryPolicy, request.observedAt, p.currentAttempt, request.jitterSeed).Ok?
  }

  ghost predicate AcceptedOneWay(plain: Decided, scheduled: Decided, unless: bool) {
    && !(plain.Ok? && scheduled.Ok?)
    && (plain.Ok? || scheduled.Ok? <==> !unless)
  }

  lemma RunningResultAccepted(s: Instance, decision: SagaDecision, request: RetryTimerScheduleRequest)
    requires Consistent(s, decision) && WellOffered(s, decision.projection, request)
    requires decision.projection.status == Running
    ensures AcceptedOneWay(ApplyActionResult(s, decision.projection, request.observation, request.nextActionId),
                           ScheduleRetryTimer(s, decision.projection, request), false)
  {
    BeginCompensationIsSound(s, decision, request.nextActionId);
  }

  lemma CompensationResultAccepted(s: Instance, decision: SagaDecision, request: RetryTimerScheduleRequest)
    requires Consistent(s, decision) && WellOffered(s, decision.projection, request)
    requires decision.projection.status == Compensating
    ensures AcceptedOneWay(ApplyActionResult(s, decision.projection, request.observation, request.nextActionId),
                           ScheduleRetryTimer(s, decision.projection, request),
                           Blocked(s.definition, decision.projection, request.observation.result))
  {
    CompensationIsSound(s, decision, request.observation.result, request.nextActionId);
  }

  // The result of the active action is never accepted both as a plain result
  // and as a scheduled retry; given a fresh next identity and a representable
  // due time it is accepted as one of them exactly when it is not blocked.
  lemma ResultAcceptedOneWayIff(s: Instance, inputs: seq<LinearSagaInput>, decision: SagaDecision,
                                id: InputId, request: RetryTimerScheduleRequest)
    requires Live(s, inputs) == Ok(Some(decision)) && WellOffered(s, decision.projection, request)
    ensures AcceptedOneWay(
              Decide(s, Some(decision.projection), ActionResultInput(id, request.observation, request.nextActionId)),
              Decide(s, Some(decision.projection), RetryTimerScheduledInput(id, request)),
              Blocked(s.definition, decision.projection, request.observation.result))
  {
    RunsStayConsistent(s, inputs, decision);
    if decision.projection.status == Running {
      RunningResultAccepted(s, decision, request);
    } else {
      CompensationResultAccepted(s, decision, request);
    }
  }

  // A blocked result is refused whatever identity, time or deadline comes with it.
  lemma BlockedResultIsAlwaysRefused(s: Instance, inputs: seq<LinearSagaInput>, decision: SagaDecision, input: LinearSagaInput)
    requires Live(s, inputs) == Ok(Some(decision))
    requires Blocked(s.definition, decision.projection, RetryableFailure)
    requires input.ActionResultInput? ==> input.observation.result == RetryableFailure
    ensures Decide(s, Some(decision.projection), input).Err?
  {
    RunsStayConsistent(s, inputs, decision);
  }

  // Every compensation that can ever be reached either has a single attempt or
  // declares no backoff. The last step's compensation is never reached: once it
  // succeeds the saga is complete.
  predicate CompensationsNeverWait(d: LinearSagaDefinition) {
    forall i :: 0 <= i < |d.steps| - 1 && d.steps[i].compensation.Some? ==>
      var policy := d.steps[i].compensation.value.retryPolicy;
      policy.backoff.None? || policy.maxAttempts == 1
  }

  ghost predicate SomeRunBlocks(s: Instance) {
    exists inputs: seq<LinearSagaInput>, decision: SagaDecision ::
      Recorded(s, inputs, decision) && Blocked(s.definition, decision.projection, RetryableFailure)
  }

  // A valid definition has an accepted log in a state that refuses a result it should take in
  // exactly when some compensation before the last step may wait to retry.
  lemma SomeRunBlocksIff(s: Instance)
    requires ValidDefinition(s.definition)
    ensures SomeRunBlocks(s) <==> !CompensationsNeverWait(s.definition)
  {
    if SomeRunBlocks(s) {
      var inputs: seq<LinearSagaInput>, decision: SagaDecision :| Recorded(s, inputs, decision) && Blocked(s.definition, decision.projection, RetryableFailure);
      RunsStayConsistent(s, inputs, decision);
      assert Top(decision.projection.compensableStepIndices) < |s.definition.steps| - 1;
    }
    if !CompensationsNeverWait(s.definition) {
      var i :| && 0 <= i < |s.definition.steps| - 1 && s.definition.steps[i].compensation.Some?
               && s.definition.steps[i].compensation.value.retryPolicy.backoff.Some?
               && s.definition.steps[i].compensation.value.retryPolicy.maxAttempts != 1;
      var inputs, decision := CompensationIsReached(s, i);
    }
  }

  // The result of the m-th action, offering the next identity.
  function NthResult(id: InputId, m: nat, result: ActionResult): LinearSagaInput
    requires m + 1 < ID_LIMIT
  {
    ActionResultInput(id, ActionResultObservation(NthId(m), result), Some(NthId(m + 1)))
  }

  // A start followed by k successes.
  ghost function SuccessRun(id: InputId, k: nat): (inputs: seq<LinearSagaInput>)
    requires k < ID_LIMIT
    ensures |inputs| == k + 1 && ManualFree(inputs)
  {
    if k == 0 then [Start(id, NthId(0))] else SuccessRun(id, k - 1) + [NthResult(id, k - 1, Succeeded)]
  }

  lemma SuccessAdvances(s: Instance, prior: SagaDecision, id: InputId, m: nat)
    requires Consistent(s, prior) && Idle(prior.projection, Running) && prior.projection.nextStepIndex + 1 < |s.definition.steps|
    requires m + 1 < ID_LIMIT && prior.projection.activeActionId == Some(NthId(m))
    requires NthId(m + 1) !in prior.projection.issuedActionIds
    ensures var r := Decide(s, Some(prior.projection), NthResult(id, m, Succeeded));
            && r.Ok? && Idle(r.value.projection, Running)
            && r.value.projection.nextStepIndex == prior.projection.nextStepIndex + 1
            && r.value.projection.currentAttempt == 0
            && r.value.projection.compensableStepIndices == Pushed(s.definition, prior.projection)
            && r.value.projection.activeActionId == Some(NthId(m + 1))
            && r.value.projection.issuedActionIds == prior.projection.issuedActionIds + [NthId(m + 1)]
  {
    SuccessIsSound(s, prior, Some(NthId(m + 1)));
  }

  // Step `i` runs as the m-th action, with the compensable steps before it to undo.
  ghost predicate AtStep(s: Instance, inputs: seq<LinearSagaInput>, decision: SagaDecision, i: nat, c: nat, m: nat) {
    && |inputs| == m + 1 && m < ID_LIMIT && i < |s.definition.steps|
    && Live(s, inputs) == Ok(Some(decision)) && Idle(decision.projection, Running)
    && decision.projection.nextStepIndex == i && decision.projection.currentAttempt == c
    && decision.projection.compensableStepIndices == CompensableBelow(s.definition, i)
    && decision.projection.activeActionId == Some(NthId(m)) && decision.projection.issuedActionIds == NthIds(m + 1)
  }

  lemma StepAdvances(s: Instance, id: InputId, inputs: seq<LinearSagaInput>, decision: SagaDecision, i: nat, m: nat) returns (next: SagaDecision)
    requires AtStep(s, inputs, decision, i, 0, m) && i + 1 < |s.definition.steps| && m + 1 < ID_LIMIT
    ensures AtStep(s, inputs + [NthResult(id, m, Succeeded)], next, i + 1, 0, m + 1)
  {
    RunsStayConsistent(s, inputs, decision);
    FreshNthId(decision.projection.issuedActionIds, m + 1);
    SuccessAdvances(s, decision, id, m);
    next := Extended(s, inputs, decision, NthResult(id, m, Succeeded));
  }

  // The first k actions succeed and the next one is running.
  lemma {:induction false} ReachStep(s: Instance, id: InputId, k: nat) returns (decision: SagaDecision)
    requires ValidDefinition(s.definition) && k < |s.definition.steps|
    ensures AtStep(s, SuccessRun(id, k), decision, k, 0, k)
  {
    if k == 0 {
      StartIsSound(s, NthId(0));
      assert Live(s, SuccessRun(id, 0)[..0]) == Ok(None);
      decision := StartSaga(s, NthId(0)).value;
    } else {
      var prior := ReachStep(s, id, k - 1);
      decision := StepAdvances(s, id, SuccessRun(id, k - 1), prior, k - 1, k - 1);
    }
  }

  // k successes and then a failure for good.
  ghost function FailRun(id: InputId, k: nat): (inputs: seq<LinearSagaInput>)
    requires k + 1 < ID_LIMIT
    ensures |inputs| == k + 2 && ManualFree(inputs)
  {
    SuccessRun(id, k) + [NthResult(id, k, TerminalFailure)]
  }

  lemma TerminalFailureBeginsUndo(s: Instance, prior: SagaDecision, id: InputId, k: nat)
    requires Consistent(s, prior) && Idle(prior.projection, Running) && k + 1 < ID_LIMIT
    requires prior.projection.activeActionId == Some(NthId(k)) && NthId(k + 1) !in prior.projection.issuedActionIds
    requires prior.projection.compensableStepIndices != []
    ensures var r := Decide(s, Some(prior.projection), NthResult(id, k, TerminalFailure));
            && r.Ok? && Idle(r.value.projection, Compensating) && r.value.projection.currentAttempt == 0
            && r.value.projection.compensableStepIndices == prior.projection.compensableStepIndices
            && r.value.projection.nextStepIndex == prior.projection.nextStepIndex
            && r.value.projection.activeActionId == Some(NthId(k + 1))
            && r.value.projection.issuedActionIds == prior.projection.issuedActionIds + [NthId(k + 1)]
  {
    BeginCompensationIsSound(s, prior, Some(NthId(k + 1)));
  }

  // A run that undoes: at this step and stack, this attempt, as the m-th action.
  ghost predicate Undoing(s: Instance, inputs: seq<LinearSagaInput>, decision: SagaDecision, n: nat, stack: seq<nat>, c: nat, m: nat) {
    && |inputs| == m + 1 && m < ID_LIMIT && Live(s, inputs) == Ok(Some(decision)) && Idle(decision.projection, Compensating)
    && decision.projection.nextStepIndex == n && decision.projection.compensableStepIndices == stack
    && decision.projection.currentAttempt == c
    && decision.projection.activeActionId == Some(NthId(m)) && decision.projection.issuedActionIds == NthIds(m + 1)
  }

  // Step `n` fails for good, so the steps before it are to be undone.
  lemma ReachUndo(s: Instance, id: InputId, n: nat, stack: seq<nat>) returns (inputs: seq<LinearSagaInput>, decision: SagaDecision)
    requires ValidDefinition(s.definition) && n < |s.definition.steps| && stack == CompensableBelow(s.definition, n) && stack != []
    ensures inputs == FailRun(id, n) && Undoing(s, inputs, decision, n, stack, 0, n + 1)
  {
    var before := SuccessRun(id, n);
    var prior := ReachStep(s, id, n);
    RunsStayConsistent(s, before, prior);
    FreshNthId(prior.projection.issuedActionIds, n + 1);
    TerminalFailureBeginsUndo(s, prior, id, n);
    decision := Extended(s, before, prior, NthResult(id, n, TerminalFailure));
    inputs := before + [NthResult(id, n, TerminalFailure)];
  }

  // The step after `i` fails for good, so `i` is the first to be undone.
  lemma ReachCompensationOf(s: Instance, id: InputId, i: nat) returns (decision: SagaDecision)
    requires ValidDefinition(s.definition) && i + 1 < |s.definition.steps| && s.definition.steps[i].compensation.Some?
    ensures Undoing(s, FailRun(id, i + 1), decision, i + 1, CompensableBelow(s.definition, i) + [i], 0, i + 2)
  {
    var inputs;
    inputs, decision := ReachUndo(s, id, i + 1, CompensableBelow(s.definition, i) + [i]);
  }

  // Every step of a valid definition is reached by an accepted log of successes.
  lemma StepIsReached(s: Instance, k: nat) returns (inputs: seq<LinearSagaInput>, decision: SagaDecision)
    requires ValidDefinition(s.definition) && k < |s.definition.steps|
    ensures Recorded(s, inputs, decision) && |inputs| == k + 1
    ensures Idle(decision.projection, Running) && decision.projection.nextStepIndex == k && decision.projection.currentAttempt == 0
    ensures decision.projection.compensableStepIndices == CompensableBelow(s.definition, k)
  {
    decision := ReachStep(s, NthInput(0), k);
    inputs := Numbered(SuccessRun(NthInput(0), k));
    NumberedIsRecorded(s, SuccessRun(NthInput(0), k), decision);
  }

  // And every compensation before the last step by one more step and its failure.
  lemma CompensationIsReached(s: Instance, i: nat) returns (inputs: seq<LinearSagaInput>, decision: SagaDecision)
    requires ValidDefinition(s.definition) && i + 1 < |s.definition.steps| && s.definition.steps[i].compensation.Some?
    ensures Recorded(s, inputs, decision) && |inputs| == i + 3
    ensures Idle(decision.projection, Compensating) && decision.projection.currentAttempt == 0
    ensures decision.projection.compensableStepIndices == CompensableBelow(s.definition, i) + [i]
  {
    decision := ReachCompensationOf(s, NthInput(0), i);
    inputs := Numbered(FailRun(NthInput(0), i + 1));
    NumberedIsRecorded(s, FailRun(NthInput(0), i + 1), decision);
  }

  // ------------------------------------------------------------ failed compensations

  // Step `i` has a compensation that retries at once and may count to `c`.
  predicate CountedBy(d: LinearSagaDefinition, i: nat, c: nat) {
    && i < |d.steps| && d.steps[i].compensation.Some?
    && var policy := d.steps[i].compensation.value.retryPolicy;
       policy.backoff.None? && c < policy.maxAttempts
  }

  lemma UndoRetryDecision(s: Instance, decision: SagaDecision, id: InputId, c: nat, m: nat)
    requires Consistent(s, decision) && Idle(decision.projection, Compensating) && decision.projection.compensableStepIndices != []
    requires decision.projection.currentAttempt == c && CountedBy(s.definition, Top(decision.projection.compensableStepIndices), c + 1)
    requires m + 1 < ID_LIMIT && decision.projection.activeActionId == Some(NthId(m))
    requires NthId(m + 1) !in decision.projection.issuedActionIds
    ensures var r := Decide(s, Some(decision.projection), NthResult(id, m, RetryableFailure));
            && r.Ok? && Idle(r.value.projection, Compensating) && SamePlace(decision.projection, r.value.projection)
            && r.value.projection.currentAttempt == c + 1
            && r.value.projection.activeActionId == Some(NthId(m + 1))
            && r.value.projection.issuedActionIds == decision.projection.issuedActionIds + [NthId(m + 1)]
  {
    CompensationIsSound(s, decision, RetryableFailure, Some(NthId(m + 1)));
  }

  // A compensation that fails retryably is attempted again.
  lemma UndoRetried(s: Instance, inputs: seq<LinearSagaInput>, decision: SagaDecision, id: InputId, n: nat, stack: seq<nat>, c: nat, m: nat)
    returns (next: SagaDecision)
    requires Undoing(s, inputs, decision, n, stack, c, m) && stack != [] && CountedBy(s.definition, Top(stack), c + 1) && m + 1 < ID_LIMIT
    ensures Undoing(s, inputs + [NthResult(id, m, RetryableFailure)], next, n, stack, c + 1, m + 1)
  {
    RunsStayConsistent(s, inputs, decision);
    FreshNthId(decision.projection.issuedActionIds, m + 1);
    UndoRetryDecision(s, decision, id, c, m);
    next := Extended(s, inputs, decision, NthResult(id, m, RetryableFailure));
  }

  lemma UndoRetriedTo(s: Instance, inputs: seq<LinearSagaInput>, decision: SagaDecision, id: InputId, n: nat, stack: seq<nat>, c: nat, m: nat)
    returns (more: seq<LinearSagaInput>, next: SagaDecision, last: nat)
    requires c > 0 && Undoing(s, inputs, decision, n, stack, c - 1, m)
    requires stack != [] && CountedBy(s.definition, Top(stack), c) && m + 1 < ID_LIMIT
    ensures Undoing(s, more, next, n, stack, c, last) && last == m + 1
    ensures more == inputs + [NthResult(id, m, RetryableFailure)]
  {
    next := UndoRetried(s, inputs, decision, id, n, stack, c - 1, m);
    more := inputs + [NthResult(id, m, RetryableFailure)];
    last := m + 1;
  }
}
