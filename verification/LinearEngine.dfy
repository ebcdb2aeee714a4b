// The deterministic linear saga engine: pure transitions over a replayable
// projection, and replay of its ordered event log
// (crates/penelope-executor/src/engine.rs).
module LinearEngine {
  import opened Wrappers
  import opened Domain
  import opened SagaDefinition

  datatype SagaStatus = Running | Completed | Escalated | Cancelled | Compensated | Compensating

  datatype ActionResult = Succeeded | RetryableFailure | TerminalFailure | Unknown

  datatype ManualReviewResolution = RetryAction | Compensate | Cancel | Escalate

  datatype LinearSagaProjection = LinearSagaProjection(
    definitionId: DefinitionId,
    definitionVersion: DefinitionVersion,
    definitionDigest: ContentDigest,
    nextStepIndex: nat,
    currentAttempt: u32,
    retryDueAt: Option<LogicalTime>,
    activeActionId: Option<ActionId>,
    issuedActionIds: seq<ActionId>,
    compensableStepIndices: seq<nat>,
    status: SagaStatus)

  datatype ActionResultObservation = ActionResultObservation(actionId: ActionId, result: ActionResult)

  datatype RetryTimerScheduleRequest = RetryTimerScheduleRequest(
    observation: ActionResultObservation,
    nextActionId: Option<ActionId>,
    observedAt: LogicalTime,
    jitterSeed: RetryJitterSeed,
    retryDeadline: Option<LogicalTime>)

  datatype LinearSagaInput =
    | Start(inputId: InputId, startActionId: ActionId)
    | ActionResultInput(inputId: InputId, observation: ActionResultObservation, nextActionId: Option<ActionId>)
    | RetryTimerScheduledInput(inputId: InputId, request: RetryTimerScheduleRequest)
    | RetryTimerFiredInput(inputId: InputId, timerActionId: ActionId, firedAt: LogicalTime, retryActionId: ActionId)
    | ManualResolution(inputId: InputId, resolution: ManualReviewResolution, resumeActionId: Option<ActionId>)

  datatype LinearSagaEvent =
    | Started(inputId: InputId, definitionId: DefinitionId, definitionVersion: DefinitionVersion,
              definitionDigest: ContentDigest, startActionId: ActionId)
    | ActionResultObserved(inputId: InputId, observation: ActionResultObservation, nextActionId: Option<ActionId>)
    | RetryTimerScheduled(inputId: InputId, request: RetryTimerScheduleRequest)
    | RetryTimerFired(inputId: InputId, timerActionId: ActionId, firedAt: LogicalTime, retryActionId: ActionId)
    | ManualResolutionApplied(inputId: InputId, resolution: ManualReviewResolution, resumeActionId: Option<ActionId>)

  datatype LinearSagaEventEnvelope = LinearSagaEventEnvelope(sequence: u64, event: LinearSagaEvent)

  datatype SagaDecision = SagaDecision(projection: LinearSagaProjection, nextAction: Option<ProcessAction>)

  type Decided = Result<SagaDecision, EngineError>

  // A definition bound to the tenant and process that run it.
  datatype Instance = Instance(definition: LinearSagaDefinition, tenantId: TenantId, processId: ProcessId)

  function ToEvent(definition: LinearSagaDefinition, input: LinearSagaInput): LinearSagaEvent {
    match input
    case Start(inputId, actionId) =>
      Started(inputId, definition.definitionId, definition.definitionVersion, definition.definitionDigest, actionId)
    case ActionResultInput(inputId, observation, nextActionId) =>
      ActionResultObserved(inputId, observation, nextActionId)
    case RetryTimerScheduledInput(inputId, request) =>
      RetryTimerScheduled(inputId, request)
    case RetryTimerFiredInput(inputId, timerActionId, firedAt, retryActionId) =>
      RetryTimerFired(inputId, timerActionId, firedAt, retryActionId)
    case ManualResolution(inputId, resolution, resumeActionId) =>
      LinearSagaEvent.ManualResolutionApplied(inputId, resolution, resumeActionId)
  }

  // ------------------------------------------------------------------ transitions

  predicate Pins(d: LinearSagaDefinition, p: LinearSagaProjection) {
    && p.definitionId == d.definitionId
    && p.definitionVersion == d.definitionVersion
    && p.definitionDigest == d.definitionDigest
  }

  function ScopeOf(s: Instance): ProcessScope {
    ProcessScope(s.tenantId, s.processId, s.definition.definitionId,
                 s.definition.definitionVersion, s.definition.definitionDigest)
  }

  function ActionFor(s: Instance, p: LinearSagaProjection): Result<ProcessAction, EngineError> {
    var steps := s.definition.steps;
    var planned: (StepId, ProcessActionKind, ContentDigest) :-
      if p.retryDueAt.Some? then
        if p.nextStepIndex < |steps| then
          var step := steps[p.nextStepIndex];
          Ok((step.stepId, Timer, step.payloadDigest))
        else Err(InvalidProjection)
      else if p.status == Compensating then
        if p.compensableStepIndices == [] then Err(InvalidProjection)
        else
          var top := p.compensableStepIndices[|p.compensableStepIndices| - 1];
          if top >= |steps| || steps[top].compensation.None? then Err(InvalidProjection)
          else
            var plan := steps[top].compensation.value;
            Ok((steps[top].stepId, plan.actionKind, plan.payloadDigest))
      else if p.nextStepIndex < |steps| then
        var step := steps[p.nextStepIndex];
        Ok((step.stepId, step.actionKind, step.payloadDigest))
      else Err(InvalidProjection);
    if p.activeActionId.None? then Err(InvalidProjection)
    else
      Ok(ProcessAction(
           ProcessScope(s.tenantId, s.processId, p.definitionId, p.definitionVersion, p.definitionDigest),
           p.activeActionId.value, planned.0, p.currentAttempt, planned.1, planned.2))
  }

  function TerminalProjectionOf(p: LinearSagaProjection, nextStepIndex: nat, stack: seq<nat>, status: SagaStatus)
    : LinearSagaProjection
  {
    p.(nextStepIndex := nextStepIndex, activeActionId := None, compensableStepIndices := stack, status := status)
  }

  function FreshActionId(p: LinearSagaProjection, nextActionId: Option<ActionId>): (r: Result<ActionId, EngineError>)
    ensures r.Ok? ==> nextActionId == Some(r.value) && r.value !in p.issuedActionIds
    ensures r.Err? ==> r.error in {MissingNextAction, ReusedActionId}
  {
    if nextActionId.None? then Err(MissingNextAction)
    else if nextActionId.value in p.issuedActionIds then Err(ReusedActionId)
    else Ok(nextActionId.value)
  }

  function Issue(p: LinearSagaProjection, actionId: ActionId): LinearSagaProjection {
    p.(activeActionId := Some(actionId), issuedActionIds := p.issuedActionIds + [actionId])
  }

  // Pairs a projection with the action it plans.
  function Planned(s: Instance, p: LinearSagaProjection): Decided {
    var action :- ActionFor(s, p);
    Ok(SagaDecision(p, Some(action)))
  }

  function Settled(p: LinearSagaProjection): Decided {
    Ok(SagaDecision(p, None))
  }

  function StartSaga(s: Instance, actionId: ActionId): Decided {
    var d := s.definition;
    var _ :- ValidationOf(d);
    Planned(s, LinearSagaProjection(d.definitionId, d.definitionVersion, d.definitionDigest,
                                    0, 0, None, Some(actionId), [actionId], [], Running))
  }

  function BeginCompensation(s: Instance, p: LinearSagaProjection, nextActionId: Option<ActionId>): Decided {
    if p.compensableStepIndices == [] then
      Settled(TerminalProjectionOf(p, p.nextStepIndex, [], Escalated))
    else
      var actionId :- FreshActionId(p, nextActionId);
      Planned(s, Issue(p, actionId).(currentAttempt := 0, status := Compensating))
  }

  function ApplyForwardResult(s: Instance, p: LinearSagaProjection, result: ActionResult, nextActionId: Option<ActionId>)
    : Decided
  {
    var steps := s.definition.steps;
    match result
    case Succeeded =>
      if p.nextStepIndex >= |steps| then Err(InvalidProjection)
      else
        var stack := if steps[p.nextStepIndex].compensation.Some?
                     then p.compensableStepIndices + [p.nextStepIndex]
                     else p.compensableStepIndices;
        if p.nextStepIndex + 1 == |steps| then
          Settled(TerminalProjectionOf(p, p.nextStepIndex + 1, stack, Completed))
        else
          var actionId :- FreshActionId(p, nextActionId);
          Planned(s, Issue(p, actionId).(nextStepIndex := p.nextStepIndex + 1, currentAttempt := 0,
                                         compensableStepIndices := stack, status := Running))
    case RetryableFailure =>
      if p.nextStepIndex >= |steps| then Err(InvalidProjection)
      else if p.currentAttempt == U32_MAX then Err(AttemptOverflow)
      else
        var policy := steps[p.nextStepIndex].retryPolicy;
        if p.currentAttempt + 1 >= policy.maxAttempts then
          BeginCompensation(s, p, nextActionId)
        else if policy.backoff.Some? then Err(RetryTimerRequired)
        else
          var actionId :- FreshActionId(p, nextActionId);
          Planned(s, Issue(p, actionId).(currentAttempt := p.currentAttempt + 1, status := Running))
    case TerminalFailure =>
      BeginCompensation(s, p, nextActionId)
    case Unknown =>
      Settled(TerminalProjectionOf(p, p.nextStepIndex, p.compensableStepIndices, Escalated))
  }

  function CompensationFor(d: LinearSagaDefinition, p: LinearSagaProjection): Result<CompensationPlan, EngineError> {
    if p.compensableStepIndices == [] then Err(InvalidProjection)
    else
      var top := p.compensableStepIndices[|p.compensableStepIndices| - 1];
      if top >= |d.steps| || d.steps[top].compensation.None? then Err(InvalidProjection)
      else Ok(d.steps[top].compensation.value)
  }

  function ApplyCompensationResult(s: Instance, p: LinearSagaProjection, result: ActionResult, nextActionId: Option<ActionId>)
    : Decided
  {
    var compensation :- CompensationFor(s.definition, p);
    match result
    case Succeeded =>
      var remaining := p.compensableStepIndices[..|p.compensableStepIndices| - 1];
      if remaining == [] then
        Settled(TerminalProjectionOf(p, p.nextStepIndex, remaining, Compensated))
      else
        var actionId :- FreshActionId(p, nextActionId);
        Planned(s, Issue(p, actionId).(currentAttempt := 0, compensableStepIndices := remaining, status := Compensating))
    case RetryableFailure =>
      if p.currentAttempt == U32_MAX then Err(AttemptOverflow)
      else if p.currentAttempt + 1 >= compensation.retryPolicy.maxAttempts then
        Settled(TerminalProjectionOf(p, p.nextStepIndex, p.compensableStepIndices, Escalated))
      else if compensation.retryPolicy.backoff.Some? then Err(RetryTimerRequired)
      else
        var actionId :- FreshActionId(p, nextActionId);
        Planned(s, Issue(p, actionId).(currentAttempt := p.currentAttempt + 1, status := Compensating))
    case TerminalFailure =>
      Settled(TerminalProjectionOf(p, p.nextStepIndex, p.compensableStepIndices, Escalated))
    case Unknown =>
      Settled(TerminalProjectionOf(p, p.nextStepIndex, p.compensableStepIndices, Escalated))
  }

  function ApplyActionResult(s: Instance, p: LinearSagaProjection, observation: ActionResultObservation,
                                   nextActionId: Option<ActionId>): Decided
  {
    var _ :- ValidationOf(s.definition);
    if !Pins(s.definition, p) then Err(DefinitionMismatch)
    else if p.status != Running && p.status != Compensating then Err(TerminalProjection)
    else if p.nextStepIndex >= |s.definition.steps| then Err(InvalidProjection)
    else if p.activeActionId != Some(observation.actionId) then Err(UnexpectedAction)
    else if p.retryDueAt.Some? then Err(RetryTimerMustFire)
    else if p.status == Running then ApplyForwardResult(s, p, observation.result, nextActionId)
    else ApplyCompensationResult(s, p, observation.result, nextActionId)
  }

  function ScheduleRetryTimer(s: Instance, p: LinearSagaProjection, request: RetryTimerScheduleRequest): Decided {
    var _ :- ValidationOf(s.definition);
    if !Pins(s.definition, p) then Err(DefinitionMismatch)
    else if p.status != Running then Err(TerminalProjection)
    else if p.nextStepIndex >= |s.definition.steps| then Err(InvalidProjection)
    else if p.activeActionId != Some(request.observation.actionId) then Err(UnexpectedAction)
    else if p.retryDueAt.Some? then Err(RetryTimerMustFire)
    else if request.observation.result != RetryableFailure then Err(RetryTimerRequiresRetryableFailure)
    else
      var policy := s.definition.steps[p.nextStepIndex].retryPolicy;
      if policy.backoff.None? then Err(RetryTimerNotConfigured)
      else if p.currentAttempt == U32_MAX then Err(AttemptOverflow)
      else if p.currentAttempt + 1 >= policy.maxAttempts then Err(RetryTimerNotRequired)
      else
        var due :- RetryDueAt(policy, request.observedAt, p.currentAttempt, request.jitterSeed);
        if due.None? then Err(RetryTimerNotConfigured)
        else if request.retryDeadline.Some? && due.value > request.retryDeadline.value then
          BeginCompensation(s, p, request.nextActionId)
        else
          var actionId :- FreshActionId(p, request.nextActionId);
          Planned(s, Issue(p, actionId).(currentAttempt := p.currentAttempt + 1, retryDueAt := due))
  }

  function FireRetryTimer(s: Instance, p: LinearSagaProjection, timerActionId: ActionId, firedAt: LogicalTime,
                                retryActionId: ActionId): Decided
  {
    var _ :- ValidationOf(s.definition);
    if !Pins(s.definition, p) then Err(DefinitionMismatch)
    else if p.status != Running then Err(TerminalProjection)
    else if p.nextStepIndex >= |s.definition.steps| then Err(InvalidProjection)
    else if p.activeActionId != Some(timerActionId) then Err(UnexpectedRetryTimer)
    else if p.retryDueAt.None? then Err(UnexpectedRetryTimer)
    else if firedAt < p.retryDueAt.value then Err(RetryTimerFiredEarly)
    else
      var actionId :- FreshActionId(p, Some(retryActionId));
      Planned(s, Issue(p, actionId).(retryDueAt := None))
  }

  function ApplyManualResolution(s: Instance, p: LinearSagaProjection, resolution: ManualReviewResolution,
                                       resumeActionId: Option<ActionId>): Decided
  {
    var _ :- ValidationOf(s.definition);
    if !Pins(s.definition, p) then Err(DefinitionMismatch)
    else if p.status != Escalated then Err(ManualResolutionRequiresEscalation)
    else if p.nextStepIndex >= |s.definition.steps| then Err(InvalidProjection)
    else
      match resolution
      case RetryAction =>
        var actionId :- FreshActionId(p, resumeActionId);
        Planned(s, Issue(p, actionId).(status := Running))
      case Compensate =>
        if p.compensableStepIndices == [] then
          Settled(TerminalProjectionOf(p, p.nextStepIndex, [], Cancelled))
        else
          var actionId :- FreshActionId(p, resumeActionId);
          Planned(s, Issue(p, actionId).(currentAttempt := 0, status := Compensating))
      case Cancel =>
        Settled(TerminalProjectionOf(p, p.nextStepIndex, p.compensableStepIndices, Cancelled))
      case Escalate =>
        Settled(p)
  }

  function Decide(s: Instance, projection: Option<LinearSagaProjection>, input: LinearSagaInput): Decided {
    match input
    case Start(_, actionId) =>
      if projection.Some? then Err(StartWithProjection) else StartSaga(s, actionId)
    case ActionResultInput(_, observation, nextActionId) =>
      if projection.None? then Err(MissingProjection)
      else ApplyActionResult(s, projection.value, observation, nextActionId)
    case RetryTimerScheduledInput(_, request) =>
      if projection.None? then Err(MissingProjection)
      else ScheduleRetryTimer(s, projection.value, request)
    case RetryTimerFiredInput(_, timerActionId, firedAt, retryActionId) =>
      if projection.None? then Err(MissingProjection)
      else FireRetryTimer(s, projection.value, timerActionId, firedAt, retryActionId)
    case ManualResolution(_, resolution, resumeActionId) =>
      if projection.None? then Err(MissingProjection)
      else ApplyManualResolution(s, projection.value, resolution, resumeActionId)
  }

  // ------------------------------------------------------------------------- runs

  function ProjectionOf(decision: Option<SagaDecision>): Option<LinearSagaProjection> {
    match decision
    case None => None
    case Some(current) => Some(current.projection)
  }

  // What a host computes by feeding inputs one at a time to `Decide`.
  function Live(s: Instance, inputs: seq<LinearSagaInput>): Result<Option<SagaDecision>, EngineError> {
    if inputs == [] then Ok(None)
    else
      var prior :- Live(s, inputs[..|inputs| - 1]);
      var decision :- Decide(s, ProjectionOf(prior), inputs[|inputs| - 1]);
      Ok(Some(decision))
  }

  ghost predicate Reachable(s: Instance, decision: SagaDecision) {
    exists inputs :: Live(s, inputs) == Ok(Some(decision))
  }
}
