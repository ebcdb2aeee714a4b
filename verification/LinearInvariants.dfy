// What holds of every decision the linear engine can reach, over runs of any
// length and with any mix of results, timers and manual resolutions.
module LinearInvariants {
  import opened Wrappers
  import opened Domain
  import opened SagaDefinition
  import opened LinearEngine

  predicate Working(p: LinearSagaProjection) {
    p.status == Running || p.status == Compensating
  }

  // Undo stack of steps that can be compensated: strictly increasing, and only
  // steps before `bound`.
  ghost predicate CompensationStack(d: LinearSagaDefinition, stack: seq<nat>, bound: nat) {
    && (forall i, j :: 0 <= i < j < |stack| ==> stack[i] < stack[j])
    && (forall i :: 0 <= i < |stack| ==>
          stack[i] < bound && stack[i] < |d.steps| && d.steps[stack[i]].compensation.Some?)
  }

  ghost predicate Consistent(s: Instance, decision: SagaDecision) {
    var d, p := s.definition, decision.projection;
    && ValidDefinition(d)
    && Pins(d, p)
    && (p.activeActionId.Some? <==> Working(p))
    && p.issuedActionIds != [] && Distinct(p.issuedActionIds)
    && (p.activeActionId.Some? ==> p.activeActionId.value == p.issuedActionIds[|p.issuedActionIds| - 1])
    && p.nextStepIndex <= |d.steps|
    && (p.nextStepIndex == |d.steps| <==> p.status == Completed)
    && (p.retryDueAt.Some? ==> p.status == Running && d.steps[p.nextStepIndex].retryPolicy.backoff.Some?)
    && CompensationStack(d, p.compensableStepIndices, p.nextStepIndex)
    && (p.status == Compensating ==> p.compensableStepIndices != [])
    && (p.status == Compensated ==> p.compensableStepIndices == [])
    && p.currentAttempt < MAX_ACTION_ATTEMPTS_PER_STEP
    && (if Working(p) then ActionFor(s, p).Ok? && decision.nextAction == Some(ActionFor(s, p).value)
        else decision.nextAction == None)
  }

  // Failures that would mean the engine produced a projection it cannot use.
  predicate Internal(e: EngineError) {
    e in {InvalidProjection, AttemptOverflow, DefinitionMismatch, MissingProjection,
          EmptyDefinition, DefinitionStepLimitExceeded, DuplicateStepId, RetryAttemptLimitExceeded}
  }

  ghost predicate Sound(s: Instance, r: Decided) {
    match r
    case Ok(decision) => Consistent(s, decision)
    case Err(e) => !Internal(e)
  }

  lemma IssuedStaysDistinct(p: LinearSagaProjection, id: ActionId)
    requires Distinct(p.issuedActionIds) && id !in p.issuedActionIds
    ensures Distinct(p.issuedActionIds + [id])
  {
  }

  lemma StackGrows(d: LinearSagaDefinition, stack: seq<nat>, top: nat)
    requires CompensationStack(d, stack, top) && top < |d.steps| && d.steps[top].compensation.Some?
    ensures CompensationStack(d, stack + [top], top + 1)
  {
  }

  lemma StartIsSound(s: Instance, actionId: ActionId)
    requires ValidDefinition(s.definition)
    ensures Sound(s, StartSaga(s, actionId))
  {
  }

  lemma BeginCompensationIsSound(s: Instance, decision: SagaDecision, next: Option<ActionId>)
    requires Consistent(s, decision) && decision.projection.status == Running && decision.projection.retryDueAt.None?
    ensures Sound(s, BeginCompensation(s, decision.projection, next))
  {
    if FreshActionId(decision.projection, next).Ok? {
      IssuedStaysDistinct(decision.projection, next.value);
    }
  }

  lemma SuccessIsSound(s: Instance, decision: SagaDecision, next: Option<ActionId>)
    requires Consistent(s, decision) && decision.projection.status == Running && decision.projection.retryDueAt.None?
    ensures Sound(s, ApplyForwardResult(s, decision.projection, Succeeded, next))
  {
    var p := decision.projection;
    if FreshActionId(p, next).Ok? {
      IssuedStaysDistinct(p, next.value);
    }
    if s.definition.steps[p.nextStepIndex].compensation.Some? {
      StackGrows(s.definition, p.compensableStepIndices, p.nextStepIndex);
    }
  }

  lemma FailureIsSound(s: Instance, decision: SagaDecision, result: ActionResult, next: Option<ActionId>)
    requires Consistent(s, decision) && decision.projection.status == Running && decision.projection.retryDueAt.None?
    requires result != Succeeded
    ensures Sound(s, ApplyForwardResult(s, decision.projection, result, next))
  {
    var p := decision.projection;
    if FreshActionId(p, next).Ok? {
      IssuedStaysDistinct(p, next.value);
    }
    BeginCompensationIsSound(s, decision, next);
  }

  lemma CompensationIsSound(s: Instance, decision: SagaDecision, result: ActionResult, next: Option<ActionId>)
    requires Consistent(s, decision) && decision.projection.status == Compensating
    ensures Sound(s, ApplyCompensationResult(s, decision.projection, result, next))
  {
    if FreshActionId(decision.projection, next).Ok? {
      IssuedStaysDistinct(decision.projection, next.value);
    }
  }

  lemma ScheduleIsSound(s: Instance, decision: SagaDecision, request: RetryTimerScheduleRequest)
    requires Consistent(s, decision)
    ensures Sound(s, ScheduleRetryTimer(s, decision.projection, request))
  {
    if FreshActionId(decision.projection, request.nextActionId).Ok? {
      IssuedStaysDistinct(decision.projection, request.nextActionId.value);
    }
    if decision.projection.status == Running && decision.projection.retryDueAt.None? {
      BeginCompensationIsSound(s, decision, request.nextActionId);
    }
  }

  lemma FireIsSound(s: Instance, decision: SagaDecision, timer: ActionId, firedAt: LogicalTime, retry: ActionId)
    requires Consistent(s, decision)
    ensures Sound(s, FireRetryTimer(s, decision.projection, timer, firedAt, retry))
  {
    if FreshActionId(decision.projection, Some(retry)).Ok? {
      IssuedStaysDistinct(decision.projection, retry);
    }
  }

  lemma ManualIsSound(s: Instance, decision: SagaDecision, resolution: ManualReviewResolution, resume: Option<ActionId>)
    requires Consistent(s, decision)
    ensures Sound(s, ApplyManualResolution(s, decision.projection, resolution, resume))
  {
    if FreshActionId(decision.projection, resume).Ok? {
      IssuedStaysDistinct(decision.projection, resume.value);
    }
  }

  // One step from a consistent decision is consistent or fails for a reason
  // that lies in the input, never in the projection.
  lemma DecideIsSound(s: Instance, decision: SagaDecision, input: LinearSagaInput)
    requires Consistent(s, decision)
    ensures Sound(s, Decide(s, Some(decision.projection), input))
  {
    var p := decision.projection;
    match input
    case Start(_, _) =>
    case ActionResultInput(_, observation, next) =>
      if p.status == Running && p.retryDueAt.None? {
        if observation.result == Succeeded {
          SuccessIsSound(s, decision, next);
        } else {
          FailureIsSound(s, decision, observation.result, next);
        }
      } else if p.status == Compensating {
        CompensationIsSound(s, decision, observation.result, next);
      }
    case RetryTimerScheduledInput(_, request) => ScheduleIsSound(s, decision, request);
    case RetryTimerFiredInput(_, timer, firedAt, retry) => FireIsSound(s, decision, timer, firedAt, retry);
    case ManualResolution(_, resolution, resume) => ManualIsSound(s, decision, resolution, resume);
  }

  // The last step of a run: the decision before it, and what it decided.
  lemma LastStep(s: Instance, inputs: seq<LinearSagaInput>, decision: SagaDecision) returns (prior: Option<SagaDecision>)
    requires Live(s, inputs) == Ok(Some(decision))
    ensures inputs != [] && Live(s, inputs[..|inputs| - 1]) == Ok(prior)
    ensures Decide(s, ProjectionOf(prior), inputs[|inputs| - 1]) == Ok(decision)
    ensures prior.None? <==> |inputs| == 1
    ensures prior.None? ==> inputs[0].Start? && StartSaga(s, inputs[0].startActionId) == Ok(decision)
  {
    prior := Live(s, inputs[..|inputs| - 1]).value;
  }

  // Reachable-state invariant: every decision of every run is consistent.
  lemma {:induction false} RunsStayConsistent(s: Instance, inputs: seq<LinearSagaInput>, decision: SagaDecision)
    requires Live(s, inputs) == Ok(Some(decision))
    ensures Consistent(s, decision)
  {
    var prior := LastStep(s, inputs, decision);
    if prior.None? {
      StartIsSound(s, inputs[0].startActionId);
    } else {
      RunsStayConsistent(s, inputs[..|inputs| - 1], prior.value);
      DecideIsSound(s, prior.value, inputs[|inputs| - 1]);
    }
  }

  // No run of the engine is ever refused because of its own projection.
  lemma RunsNeverFailInternally(s: Instance, inputs: seq<LinearSagaInput>, decision: SagaDecision, input: LinearSagaInput)
    requires Live(s, inputs) == Ok(Some(decision))
    ensures var r := Decide(s, Some(decision.projection), input);
            r.Err? ==> !Internal(r.error)
  {
    RunsStayConsistent(s, inputs, decision);
    DecideIsSound(s, decision, input);
  }
}
