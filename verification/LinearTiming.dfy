// When retries of the linear engine may run.
module LinearTiming {
  import opened Wrappers
  import opened Domain
  import opened SagaDefinition
  import opened Identifiers
  import opened LinearEngine
  import opened LinearInvariants
  import opened LinearMoves
  import opened LinearTermination
  import opened LinearReplay
  import opened LinearProgress

  // The pending timer of `p` is the one this request asked for: due at the
  // observation plus the capped delay plus jitter, within any deadline.
  ghost predicate DueAsRequested(s: Instance, p: LinearSagaProjection, request: RetryTimerScheduleRequest) {
    && p.nextStepIndex < |s.definition.steps| && p.currentAttempt >= 1
    && var policy := s.definition.steps[p.nextStepIndex].retryPolicy;
    && policy.backoff.Some? && p.retryDueAt.Some?
    && RetryDueAt(policy, request.observedAt, p.currentAttempt - 1, request.jitterSeed) == Ok(p.retryDueAt)
    && (request.retryDeadline.Some? ==> p.retryDueAt.value <= request.retryDeadline.value)
  }

  lemma ScheduledAsRequested(s: Instance, prior: SagaDecision, request: RetryTimerScheduleRequest, decision: SagaDecision)
    requires Consistent(s, prior)
    requires ScheduleRetryTimer(s, prior.projection, request) == Ok(decision) && decision.projection.retryDueAt.Some?
    ensures DueAsRequested(s, decision.projection, request)
  {
  }

  // A timer is pending only right after the input that scheduled it.
  lemma PendingTimerWasJustScheduled(s: Instance, inputs: seq<LinearSagaInput>, decision: SagaDecision)
    requires Live(s, inputs) == Ok(Some(decision)) && decision.projection.retryDueAt.Some?
    ensures inputs != [] && inputs[|inputs| - 1].RetryTimerScheduledInput?
    ensures DueAsRequested(s, decision.projection, inputs[|inputs| - 1].request)
  {
    var prior := LastStep(s, inputs, decision);
    var last := inputs[|inputs| - 1];
    assert prior.Some? by {
      if prior.None? { StartsIdle(s, inputs[0].startActionId, decision); }
    }
    RunsStayConsistent(s, inputs[..|inputs| - 1], prior.value);
    var move := EveryInputIsAMove(s, prior.value, last, decision);
    assert move.RetryLater?;
    ScheduledAsRequested(s, prior.value, last.request, decision);
  }

  lemma StartsIdle(s: Instance, actionId: ActionId, decision: SagaDecision)
    requires StartSaga(s, actionId) == Ok(decision)
    ensures decision.projection.retryDueAt.None?
  {
  }

  // The retry effect is issued exactly when its own timer fires at or after the
  // due time under a fresh identity; so never before the observation plus the
  // capped delay.
  lemma RetryRunsIffTimerIsDue(s: Instance, inputs: seq<LinearSagaInput>, decision: SagaDecision,
                               id: InputId, timer: ActionId, firedAt: LogicalTime, retry: ActionId)
    requires Live(s, inputs) == Ok(Some(decision)) && decision.projection.retryDueAt.Some?
    ensures inputs != [] && inputs[|inputs| - 1].RetryTimerScheduledInput?
    ensures DueAsRequested(s, decision.projection, inputs[|inputs| - 1].request)
    ensures DueAfterDelay(s, decision.projection, inputs[|inputs| - 1].request)
    ensures FiresIffDue(s, decision.projection, timer, firedAt, retry,
                        Decide(s, Some(decision.projection), RetryTimerFiredInput(id, timer, firedAt, retry)))
  {
    PendingTimerWasJustScheduled(s, inputs, decision);
    RunsStayConsistent(s, inputs, decision);
    FiringIff(s, decision, timer, firedAt, retry);
    DueIsAfterDelay(s, decision.projection, inputs[|inputs| - 1].request);
  }

  ghost predicate DueAfterDelay(s: Instance, p: LinearSagaProjection, request: RetryTimerScheduleRequest) {
    && p.nextStepIndex < |s.definition.steps| && p.currentAttempt >= 1 && p.retryDueAt.Some?
    && var backoff := s.definition.steps[p.nextStepIndex].retryPolicy.backoff;
    && backoff.Some?
    && p.retryDueAt.value >= request.observedAt + CappedDelay(backoff.value, p.currentAttempt - 1)
  }

  lemma DueIsAfterDelay(s: Instance, p: LinearSagaProjection, request: RetryTimerScheduleRequest)
    requires DueAsRequested(s, p, request)
    ensures DueAfterDelay(s, p, request)
  {
  }

  // When a firing is accepted, and what it then runs.
  ghost predicate FiresIffDue(s: Instance, p: LinearSagaProjection, timer: ActionId, firedAt: LogicalTime, retry: ActionId, fired: Decided) {
    && p.retryDueAt.Some? && p.nextStepIndex < |s.definition.steps|
    && (fired.Ok? <==> p.activeActionId == Some(timer) && firedAt >= p.retryDueAt.value && retry !in p.issuedActionIds)
    && (fired.Ok? ==> RunsRetry(s.definition.steps[p.nextStepIndex], p, fired.value, retry))
  }

  lemma FiringIff(s: Instance, decision: SagaDecision, timer: ActionId, firedAt: LogicalTime, retry: ActionId)
    requires Consistent(s, decision) && decision.projection.retryDueAt.Some?
    ensures FiresIffDue(s, decision.projection, timer, firedAt, retry, FireRetryTimer(s, decision.projection, timer, firedAt, retry))
  {
  }

  // The decision plans the step's own effect at the attempt already counted.
  ghost predicate RunsRetry(step: StepPlan, pending: LinearSagaProjection, fired: SagaDecision, retry: ActionId) {
    && fired.projection.retryDueAt.None?
    && fired.nextAction.Some?
    && fired.nextAction.value.actionId == retry
    && fired.nextAction.value.stepId == step.stepId
    && fired.nextAction.value.kind == step.actionKind
    && fired.nextAction.value.attempt == pending.currentAttempt
  }

  // ----------------------------------------------------------------- waiting to retry

  // What an accepted schedule leaves.
  ghost predicate Waits(p: LinearSagaProjection, q: LinearSagaProjection, due: LogicalTime, timer: ActionId) {
    && SamePlace(p, q) && q.status == Running && q.currentAttempt == p.currentAttempt + 1
    && q.retryDueAt == Some(due) && q.activeActionId == Some(timer) && q.issuedActionIds == p.issuedActionIds + [timer]
  }

  // What an accepted firing leaves.
  ghost predicate Resumes(p: LinearSagaProjection, q: LinearSagaProjection, retry: ActionId) {
    && SamePlace(p, q) && Idle(q, Running) && q.currentAttempt == p.currentAttempt
    && q.activeActionId == Some(retry) && q.issuedActionIds == p.issuedActionIds + [retry]
  }

  // The active action failed retryably, its retry may wait until `due`, and the
  // timer's identity is fresh.
  ghost predicate MayWait(s: Instance, p: LinearSagaProjection, request: RetryTimerScheduleRequest, due: LogicalTime, timer: ActionId) {
    && Idle(p, Running) && p.nextStepIndex < |s.definition.steps|
    && p.activeActionId == Some(request.observation.actionId) && request.observation.result == RetryableFailure
    && request.nextActionId == Some(timer) && timer !in p.issuedActionIds
    && var policy := s.definition.steps[p.nextStepIndex].retryPolicy;
    && policy.backoff.Some? && p.currentAttempt + 1 < policy.maxAttempts
    && RetryDueAt(policy, request.observedAt, p.currentAttempt, request.jitterSeed) == Ok(Some(due))
    && (request.retryDeadline.Some? ==> due <= request.retryDeadline.value)
  }

  lemma ScheduleDecision(s: Instance, decision: SagaDecision, request: RetryTimerScheduleRequest, due: LogicalTime, timer: ActionId)
    requires Consistent(s, decision) && MayWait(s, decision.projection, request, due, timer)
    ensures ScheduleRetryTimer(s, decision.projection, request).Ok?
    ensures Waits(decision.projection, ScheduleRetryTimer(s, decision.projection, request).value.projection, due, timer)
  {
  }

  lemma ScheduleIsAccepted(s: Instance, inputs: seq<LinearSagaInput>, decision: SagaDecision, id: InputId,
                           request: RetryTimerScheduleRequest, due: LogicalTime, timer: ActionId) returns (next: SagaDecision)
    requires Live(s, inputs) == Ok(Some(decision)) && MayWait(s, decision.projection, request, due, timer)
    ensures Live(s, inputs + [RetryTimerScheduledInput(id, request)]) == Ok(Some(next))
    ensures Waits(decision.projection, next.projection, due, timer)
  {
    RunsStayConsistent(s, inputs, decision);
    ScheduleDecision(s, decision, request, due, timer);
    next := Extended(s, inputs, decision, RetryTimerScheduledInput(id, request));
  }

  lemma FiringDecision(s: Instance, decision: SagaDecision, timer: ActionId, firedAt: LogicalTime, retry: ActionId)
    requires Consistent(s, decision) && decision.projection.retryDueAt.Some?
    requires decision.projection.activeActionId == Some(timer) && retry !in decision.projection.issuedActionIds
    requires firedAt >= decision.projection.retryDueAt.value
    ensures FireRetryTimer(s, decision.projection, timer, firedAt, retry).Ok?
    ensures Resumes(decision.projection, FireRetryTimer(s, decision.projection, timer, firedAt, retry).value.projection, retry)
  {
  }

  lemma FiringIsAccepted(s: Instance, inputs: seq<LinearSagaInput>, decision: SagaDecision, id: InputId,
                         timer: ActionId, firedAt: LogicalTime, retry: ActionId) returns (next: SagaDecision)
    requires Live(s, inputs) == Ok(Some(decision)) && decision.projection.retryDueAt.Some?
    requires decision.projection.activeActionId == Some(timer) && retry !in decision.projection.issuedActionIds
    requires firedAt >= decision.projection.retryDueAt.value
    ensures Live(s, inputs + [RetryTimerFiredInput(id, timer, firedAt, retry)]) == Ok(Some(next))
    ensures Resumes(decision.projection, next.projection, retry)
  {
    RunsStayConsistent(s, inputs, decision);
    FiringDecision(s, decision, timer, firedAt, retry);
    next := Extended(s, inputs, decision, RetryTimerFiredInput(id, timer, firedAt, retry));
  }

  // The retryable failure of the n-th issued action, observed at time zero.
  function WaitRequest(seed: RetryJitterSeed, n: nat, deadline: Option<LogicalTime>): RetryTimerScheduleRequest
    requires n + 1 < ID_LIMIT
  {
    RetryTimerScheduleRequest(ActionResultObservation(NthId(n), RetryableFailure), Some(NthId(n + 1)), 0, seed, deadline)
  }

  // ------------------------------------------------------------------- the deadline

  // The deadline limits when the retry is due, not when it fires: a firing under a
  // fresh identity is accepted from the due time on, the decision is the same
  // whenever it comes, and some accepted firing is late unless the deadline is the
  // end of time.
  lemma DeadlineIsNotChecked(s: Instance, inputs: seq<LinearSagaInput>, decision: SagaDecision, id: InputId, timer: ActionId,
                             retry: ActionId, deadline: LogicalTime)
    requires Live(s, inputs) == Ok(Some(decision)) && decision.projection.retryDueAt.Some?
    requires decision.projection.activeActionId == Some(timer) && retry !in decision.projection.issuedActionIds
    requires inputs != [] && inputs[|inputs| - 1].RetryTimerScheduledInput?
    requires inputs[|inputs| - 1].request.retryDeadline == Some(deadline)
    ensures decision.projection.retryDueAt.value <= deadline
    ensures forall firedAt: LogicalTime ::
      FiringOf(s, decision, id, timer, firedAt, retry).Ok? <==> firedAt >= decision.projection.retryDueAt.value
    ensures forall early: LogicalTime, late: LogicalTime {:trigger FiringOf(s, decision, id, timer, early, retry), FiringOf(s, decision, id, timer, late, retry)} ::
      FiringOf(s, decision, id, timer, early, retry).Ok? && FiringOf(s, decision, id, timer, late, retry).Ok? ==>
        FiringOf(s, decision, id, timer, early, retry) == FiringOf(s, decision, id, timer, late, retry)
    ensures (exists firedAt: LogicalTime :: firedAt > deadline && FiringOf(s, decision, id, timer, firedAt, retry).Ok?)
       <==> deadline < U64_MAX
  {
    PendingTimerWasJustScheduled(s, inputs, decision);
    forall firedAt: LogicalTime
      ensures FiresIffDue(s, decision.projection, timer, firedAt, retry, FiringOf(s, decision, id, timer, firedAt, retry))
    {
      RetryRunsIffTimerIsDue(s, inputs, decision, id, timer, firedAt, retry);
    }
    forall early: LogicalTime, late: LogicalTime | FiringOf(s, decision, id, timer, early, retry).Ok? && FiringOf(s, decision, id, timer, late, retry).Ok?
      ensures FiringOf(s, decision, id, timer, early, retry) == FiringOf(s, decision, id, timer, late, retry)
    {
      FiringIgnoresTime(s, decision.projection, timer, early, late, retry);
    }
    if deadline < U64_MAX {
      var late: LogicalTime := U64_MAX;
      assert FiringOf(s, decision, id, timer, late, retry).Ok?;
    }
  }

  lemma FiringIgnoresTime(s: Instance, p: LinearSagaProjection, timer: ActionId, early: LogicalTime, late: LogicalTime, retry: ActionId)
    requires FireRetryTimer(s, p, timer, early, retry).Ok? && FireRetryTimer(s, p, timer, late, retry).Ok?
    ensures FireRetryTimer(s, p, timer, early, retry) == FireRetryTimer(s, p, timer, late, retry)
  {
  }

  function FiringOf(s: Instance, decision: SagaDecision, id: InputId, timer: ActionId, firedAt: LogicalTime, retry: ActionId): Decided {
    Decide(s, Some(decision.projection), RetryTimerFiredInput(id, timer, firedAt, retry))
  }

  // The first retry is pending, with its due time as deadline.
  lemma WaitToDeadline(s: Instance, id: InputId, seed: RetryJitterSeed, due: LogicalTime)
    returns (inputs: seq<LinearSagaInput>, pending: SagaDecision)
    requires ValidDefinition(s.definition)
    requires var policy := s.definition.steps[0].retryPolicy;
      && policy.backoff.Some? && policy.maxAttempts > 1 && RetryDueAt(policy, 0, 0, seed) == Ok(Some(due))
    ensures inputs == SuccessRun(id, 0) + [RetryTimerScheduledInput(id, WaitRequest(seed, 0, Some(due)))]
    ensures Live(s, inputs) == Ok(Some(pending)) && pending.projection.retryDueAt == Some(due)
    ensures pending.projection.nextStepIndex == 0 && pending.projection.currentAttempt == 1
    ensures pending.projection.activeActionId == Some(NthId(1)) && pending.projection.issuedActionIds == NthIds(2)
  {
    var started := ReachStep(s, id, 0);
    FreshNthId(started.projection.issuedActionIds, 1);
    pending := ScheduleIsAccepted(s, SuccessRun(id, 0), started, id, WaitRequest(seed, 0, Some(due)), due, NthId(1));
    inputs := SuccessRun(id, 0) + [RetryTimerScheduledInput(id, WaitRequest(seed, 0, Some(due)))];
  }

  lemma FireAfterDeadline(s: Instance, id: InputId, seed: RetryJitterSeed, due: LogicalTime)
    returns (inputs: seq<LinearSagaInput>, decision: SagaDecision)
    requires ValidDefinition(s.definition) && due < U64_MAX
    requires var policy := s.definition.steps[0].retryPolicy;
      && policy.backoff.Some? && policy.maxAttempts > 1 && RetryDueAt(policy, 0, 0, seed) == Ok(Some(due))
    ensures |inputs| == 3 && Live(s, inputs) == Ok(Some(decision))
    ensures inputs[1] == RetryTimerScheduledInput(id, WaitRequest(seed, 0, Some(due)))
    ensures inputs[2] == RetryTimerFiredInput(id, NthId(1), due + 1, NthId(2))
    ensures Idle(decision.projection, Running) && decision.projection.nextStepIndex == 0 && decision.projection.currentAttempt == 1
  {
    var before, pending := WaitToDeadline(s, id, seed, due);
    FreshNthId(pending.projection.issuedActionIds, 2);
    decision := FiringIsAccepted(s, before, pending, id, NthId(1), due + 1, NthId(2));
    inputs := before + [RetryTimerFiredInput(id, NthId(1), due + 1, NthId(2))];
  }

  lemma RunningPlansStep(s: Instance, decision: SagaDecision)
    requires Consistent(s, decision) && Idle(decision.projection, Running)
    ensures decision.projection.nextStepIndex < |s.definition.steps| && decision.nextAction.Some?
    ensures decision.nextAction.value.stepId == s.definition.steps[decision.projection.nextStepIndex].stepId
    ensures decision.nextAction.value.attempt == decision.projection.currentAttempt
  {
  }

  // An accepted log in which a retry is scheduled with its own due time as the
  // deadline and fires one tick later.
  lemma LateFiringRuns(s: Instance, seed: RetryJitterSeed, due: LogicalTime) returns (inputs: seq<LinearSagaInput>, decision: SagaDecision)
    requires ValidDefinition(s.definition) && due < U64_MAX
    requires var policy := s.definition.steps[0].retryPolicy;
      && policy.backoff.Some? && policy.maxAttempts > 1 && RetryDueAt(policy, 0, 0, seed) == Ok(Some(due))
    ensures |inputs| == 3 && Recorded(s, inputs, decision) && decision.nextAction.Some?
    ensures inputs[1].RetryTimerScheduledInput? && inputs[1].request.retryDeadline == Some(due)
    ensures inputs[2].RetryTimerFiredInput? && inputs[2].firedAt > due
    ensures decision.nextAction.value.stepId == s.definition.steps[0].stepId && decision.nextAction.value.attempt == 1
  {
    var run;
    run, decision := FireAfterDeadline(s, NthInput(0), seed, due);
    RunsStayConsistent(s, run, decision);
    RunningPlansStep(s, decision);
    NumberedIsRecorded(s, run, decision);
    inputs := Numbered(run);
  }

  // ------------------------------------------------------------------ every attempt

  // The first step is at its k-th attempt as the n-th action.
  ghost predicate AtAttempt(p: LinearSagaProjection, k: nat, n: nat) {
    && n < ID_LIMIT && p.nextStepIndex == 0 && p.currentAttempt == k && Idle(p, Running)
    && p.activeActionId == Some(NthId(n)) && p.issuedActionIds == NthIds(n + 1)
  }

  // The first step's policy, as a delayed policy without jitter.
  ghost predicate PlainBackoff(s: Instance, policy: RetryPolicy) {
    && ValidDefinition(s.definition) && s.definition.steps[0].retryPolicy == policy
    && policy.backoff.Some? && policy.backoff.value.jitter.None?
  }

  lemma WaitAtAttempt(s: Instance, policy: RetryPolicy, inputs: seq<LinearSagaInput>, decision: SagaDecision, id: InputId,
                      seed: RetryJitterSeed, k: nat, n: nat) returns (next: SagaDecision)
    requires PlainBackoff(s, policy) && k + 1 < policy.maxAttempts && n + 1 < ID_LIMIT
    requires Live(s, inputs) == Ok(Some(decision)) && AtAttempt(decision.projection, k, n)
    ensures Live(s, inputs + [RetryTimerScheduledInput(id, WaitRequest(seed, n, None))]) == Ok(Some(next))
    ensures Waits(decision.projection, next.projection, CappedDelay(policy.backoff.value, k), NthId(n + 1))
    ensures next.projection.issuedActionIds == NthIds(n + 2)
  {
    FreshNthId(decision.projection.issuedActionIds, n + 1);
    PlainMayWait(s, policy, decision.projection, seed, k, n);
    next := ScheduleIsAccepted(s, inputs, decision, id, WaitRequest(seed, n, None), CappedDelay(policy.backoff.value, k), NthId(n + 1));
  }

  lemma PlainMayWait(s: Instance, policy: RetryPolicy, p: LinearSagaProjection, seed: RetryJitterSeed, k: nat, n: nat)
    requires PlainBackoff(s, policy) && k + 1 < policy.maxAttempts && n + 1 < ID_LIMIT
    requires AtAttempt(p, k, n) && NthId(n + 1) !in p.issuedActionIds
    ensures MayWait(s, p, WaitRequest(seed, n, None), CappedDelay(policy.backoff.value, k), NthId(n + 1))
  {
  }

  // A run that is at the first step's k-th attempt as its n-th action.
  ghost predicate Attempting(s: Instance, inputs: seq<LinearSagaInput>, decision: SagaDecision, k: nat, n: nat) {
    |inputs| == n + 1 && n == 2 * k && Live(s, inputs) == Ok(Some(decision)) && AtAttempt(decision.projection, k, n)
  }

  // The next attempt is scheduled, and its timer fires.
  lemma NextAttempt(s: Instance, policy: RetryPolicy, before: seq<LinearSagaInput>, prior: SagaDecision, id: InputId,
                    seed: RetryJitterSeed, k: nat, n: nat) returns (inputs: seq<LinearSagaInput>, decision: SagaDecision, last: nat)
    requires PlainBackoff(s, policy) && k + 1 < policy.maxAttempts && n + 2 < ID_LIMIT
    requires Attempting(s, before, prior, k, n)
    ensures Attempting(s, inputs, decision, k + 1, last)
  {
    last := n + 2;
    var pending := WaitAtAttempt(s, policy, before, prior, id, seed, k, n);
    inputs := before + [RetryTimerScheduledInput(id, WaitRequest(seed, n, None))];
    FreshNthId(pending.projection.issuedActionIds, last);
    decision := FiringIsAccepted(s, inputs, pending, id, NthId(n + 1), U64_MAX, NthId(last));
    inputs := inputs + [RetryTimerFiredInput(id, NthId(n + 1), U64_MAX, NthId(last))];
  }

  // Every attempt a delayed policy permits is reached live: fail, wait, fail again.
  lemma {:induction false} ReachAttempt(s: Instance, policy: RetryPolicy, id: InputId, seed: RetryJitterSeed, k: nat)
    returns (inputs: seq<LinearSagaInput>, decision: SagaDecision, n: nat)
    requires PlainBackoff(s, policy) && k < policy.maxAttempts && k < MAX_ACTION_ATTEMPTS_PER_STEP
    ensures Attempting(s, inputs, decision, k, n)
  {
    if k == 0 {
      decision := ReachStep(s, id, 0);
      inputs, n := SuccessRun(id, 0), 0;
    } else {
      var before, prior, m := ReachAttempt(s, policy, id, seed, k - 1);
      inputs, decision, n := NextAttempt(s, policy, before, prior, id, seed, k - 1, m);
    }
  }

  // And so by an accepted log.
  lemma AttemptIsReached(s: Instance, policy: RetryPolicy, seed: RetryJitterSeed, k: nat)
    returns (inputs: seq<LinearSagaInput>, decision: SagaDecision)
    requires PlainBackoff(s, policy) && k < policy.maxAttempts && k < MAX_ACTION_ATTEMPTS_PER_STEP
    ensures Recorded(s, inputs, decision) && Idle(decision.projection, Running)
    ensures decision.projection.nextStepIndex == 0 && decision.projection.currentAttempt == k
  {
    var n;
    inputs, decision, n := ReachAttempt(s, policy, NthInput(0), seed, k);
    NumberedIsRecorded(s, inputs, decision);
    inputs := Numbered(inputs);
  }

  // The pending retry was due the moment its failure was observed.
  ghost predicate DueAtOnce(inputs: seq<LinearSagaInput>, p: LinearSagaProjection) {
    && inputs != [] && inputs[|inputs| - 1].RetryTimerScheduledInput?
    && p.retryDueAt == Some(inputs[|inputs| - 1].request.observedAt)
  }

  // Wherever the capped delay is zero, an accepted log makes that retry due at once.
  lemma RetryDueAtOnce(s: Instance, policy: RetryPolicy, seed: RetryJitterSeed, ordinal: nat)
    returns (inputs: seq<LinearSagaInput>, decision: SagaDecision)
    requires PlainBackoff(s, policy) && ordinal + 1 < policy.maxAttempts && ordinal < MAX_ACTION_ATTEMPTS_PER_STEP
    requires CappedDelay(policy.backoff.value, ordinal) == 0
    ensures Recorded(s, inputs, decision) && decision.projection.currentAttempt == ordinal + 1
    ensures DueAtOnce(inputs, decision.projection)
  {
    var id := NthInput(0);
    var before, prior, n := ReachAttempt(s, policy, id, seed, ordinal);
    decision := WaitAtAttempt(s, policy, before, prior, id, seed, ordinal, n);
    var run := before + [RetryTimerScheduledInput(id, WaitRequest(seed, n, None))];
    NumberedIsRecorded(s, run, decision);
    inputs := Numbered(run);
  }

  // The lost shift is reachable: with base 4 and 64 attempts the last retry is
  // due the moment it is observed, though the cap asks for a positive delay.
  lemma LastRetryMayBeDueAtOnce(s: Instance, seed: RetryJitterSeed, cap: NonZeroU64)
    returns (inputs: seq<LinearSagaInput>, decision: SagaDecision)
    requires ValidDefinition(s.definition) && 4 <= cap
    requires s.definition.steps[0].retryPolicy == RetryPolicy(64, Some(RetryBackoff(4, cap, None)))
    ensures Recorded(s, inputs, decision) && decision.projection.currentAttempt >= 1
    ensures DueAtOnce(inputs, decision.projection)
    ensures DocumentedDelay(RetryBackoff(4, cap, None), decision.projection.currentAttempt - 1) == cap
  {
    ShiftedOutDelayIsZero(cap);
    inputs, decision := RetryDueAtOnce(s, s.definition.steps[0].retryPolicy, seed, 62);
  }
}
