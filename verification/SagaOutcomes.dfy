// Ordered outcome plans of linear and graph decisions
// (crates/penelope-executor/src/engine.rs and graph_outcomes.rs).
module SagaOutcomes {
  import opened Wrappers
  import opened Domain
  import opened SagaDefinition
  import L = LinearEngine
  import G = GraphEngine

  function ResultKind(result: L.ActionResult): ProcessOutcomeKind {
    match result
    case Succeeded => ActionSucceeded
    case RetryableFailure => ActionFailed
    case TerminalFailure => ActionFailed
    case Unknown => ActionOutcomeUnknown
  }

  function StatusKinds(status: L.SagaStatus): seq<ProcessOutcomeKind> {
    match status
    case Completed => [ProcessCompleted]
    case Cancelled => [ProcessCancelled]
    case Compensated => [ProcessCompensated]
    case Escalated => [ProcessEscalated]
    case Running => []
    case Compensating => []
  }

  function LinearObservedKinds(event: L.LinearSagaEvent): seq<ProcessOutcomeKind> {
    match event
    case Started(_, _, _, _, _) => [InputAccepted, ProcessStarted]
    case ActionResultObserved(_, observation, _) => [InputAccepted, ResultKind(observation.result)]
    case RetryTimerScheduled(_, _) => [InputAccepted, ActionFailed]
    case RetryTimerFired(_, _, _, _) => [InputAccepted, TimerFired]
    case ManualResolutionApplied(_, _, _) => [InputAccepted, ProcessOutcomeKind.ManualResolutionApplied]
  }

  function LinearPlannedKinds(decision: L.SagaDecision): seq<ProcessOutcomeKind> {
    if decision.nextAction.Some? then
      if decision.projection.retryDueAt.Some? then [ProcessOutcomeKind.RetryScheduled, ActionPlanned]
      else if decision.projection.status == L.Compensating then [CompensationPlanned]
      else [ActionPlanned]
    else StatusKinds(decision.projection.status)
  }

  function GraphObservedKinds(event: G.GraphSagaEvent): seq<ProcessOutcomeKind> {
    match event
    case Started(_, _) => [InputAccepted, ProcessStarted]
    case Observed(_, observation, _) => [InputAccepted, ResultKind(observation.result)]
  }

  function GraphPlannedKinds(decision: G.GraphSagaDecision): seq<ProcessOutcomeKind> {
    if decision.nextAction.Some? then [ActionPlanned] else StatusKinds(decision.projection.status)
  }

  predicate KindsAre(facts: seq<ProcessOutcomeFact>, kinds: seq<ProcessOutcomeKind>) {
    |facts| == |kinds| && forall i :: 0 <= i < |facts| ==> facts[i].kind == kinds[i]
  }

  // Every accepted-input fact names the input as its cause.
  predicate BoundTo(facts: seq<ProcessOutcomeFact>, inputId: InputId) {
    forall i :: 0 <= i < |facts| && facts[i].kind == InputAccepted ==> facts[i].causationId == InputCause(inputId)
  }

  // Facts pinned to the scope under consecutive sequences, or overflow.
  function Sequence(scope: ProcessScope, first: u64, facts: seq<ProcessOutcomeFact>): Result<seq<ProcessOutcome>, EngineError> {
    if facts != [] && first + (|facts| - 1) > U64_MAX then Err(OutcomeSequenceOverflow)
    else Ok(seq(|facts|, i requires 0 <= i < |facts| => ProcessOutcome(scope, first + i, facts[i])))
  }

  function Build(kinds: seq<ProcessOutcomeKind>, inputId: InputId, scope: ProcessScope, first: u64, facts: seq<ProcessOutcomeFact>)
    : Result<seq<ProcessOutcome>, EngineError>
  {
    if !KindsAre(facts, kinds) then Err(OutcomeKindPlanMismatch)
    else if !BoundTo(facts, inputId) then Err(OutcomeInputCausationMismatch)
    else Sequence(scope, first, facts)
  }

  // The linear engine compares the definition coordinates of the scope only.
  function BuildLinear(decision: L.SagaDecision, event: L.LinearSagaEvent, scope: ProcessScope, first: u64, facts: seq<ProcessOutcomeFact>)
    : Result<seq<ProcessOutcome>, EngineError>
  {
    var p := decision.projection;
    if scope.definitionId != p.definitionId || scope.definitionVersion != p.definitionVersion
       || scope.definitionDigest != p.definitionDigest
    then Err(OutcomeScopeMismatch)
    else Build(LinearObservedKinds(event) + LinearPlannedKinds(decision), event.inputId, scope, first, facts)
  }

  // The graph engine compares the whole scope and carries its own event.
  function BuildGraph(decision: G.GraphSagaDecision, scope: ProcessScope, first: u64, facts: seq<ProcessOutcomeFact>)
    : Result<seq<ProcessOutcome>, EngineError>
  {
    if scope != decision.projection.scope then Err(OutcomeScopeMismatch)
    else Build(GraphObservedKinds(decision.event) + GraphPlannedKinds(decision), decision.event.inputId, scope, first, facts)
  }
}
