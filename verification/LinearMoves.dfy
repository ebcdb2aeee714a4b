// The fourteen ways a started linear saga can move. Every accepted input takes
// one of them, so facts about runs need no further look inside the engine.
module LinearMoves {
  import opened Wrappers
  import opened Domain
  import opened SagaDefinition
  import opened LinearEngine
  import opened LinearInvariants

  datatype Move =
    | Advance | Finish | RetryNow | RetryLater | TimerFires | GiveUp
    | BeginUndo | UndoNext | UndoLast | RetryUndo
    | Resume | UndoByHand | CancelByHand | StayEscalated

  predicate ByHand(move: Move) {
    move.Resume? || move.UndoByHand? || move.CancelByHand? || move.StayEscalated?
  }

  function Top(stack: seq<nat>): nat
    requires stack != []
  {
    stack[|stack| - 1]
  }

  // The undo stack after the current forward step succeeds.
  function Pushed(d: LinearSagaDefinition, p: LinearSagaProjection): seq<nat>
    requires p.nextStepIndex < |d.steps|
  {
    if d.steps[p.nextStepIndex].compensation.Some? then p.compensableStepIndices + [p.nextStepIndex]
    else p.compensableStepIndices
  }

  // Fields a move leaves alone: same step, same undo stack.
  predicate SamePlace(p: LinearSagaProjection, q: LinearSagaProjection) {
    q.nextStepIndex == p.nextStepIndex && q.compensableStepIndices == p.compensableStepIndices
  }

  predicate Idle(p: LinearSagaProjection, status: SagaStatus) {
    p.status == status && p.retryDueAt.None?
  }

  ghost predicate Took(d: LinearSagaDefinition, p: LinearSagaProjection, q: LinearSagaProjection, move: Move) {
    && p.nextStepIndex < |d.steps|
    && var policy := d.steps[p.nextStepIndex].retryPolicy;
    match move
    case Advance =>
      && Idle(p, Running) && Idle(q, Running)
      && q.nextStepIndex == p.nextStepIndex + 1 < |d.steps|
      && q.currentAttempt == 0 && q.compensableStepIndices == Pushed(d, p)
    case Finish =>
      && Idle(p, Running) && Idle(q, Completed)
      && q.nextStepIndex == p.nextStepIndex + 1 == |d.steps|
      && q.currentAttempt == p.currentAttempt && q.compensableStepIndices == Pushed(d, p)
    case RetryNow =>
      && Idle(p, Running) && Idle(q, Running) && SamePlace(p, q)
      && q.currentAttempt == p.currentAttempt + 1 < policy.maxAttempts && policy.backoff.None?
    case RetryLater =>
      && Idle(p, Running) && q.status == Running && q.retryDueAt.Some? && SamePlace(p, q)
      && q.currentAttempt == p.currentAttempt + 1 < policy.maxAttempts && policy.backoff.Some?
    case TimerFires =>
      && p.status == Running && p.retryDueAt.Some? && Idle(q, Running) && SamePlace(p, q)
      && q.currentAttempt == p.currentAttempt
    case GiveUp =>
      && (Idle(p, Running) || Idle(p, Compensating)) && Idle(q, Escalated) && SamePlace(p, q)
      && q.currentAttempt == p.currentAttempt
    case BeginUndo =>
      && Idle(p, Running) && Idle(q, Compensating) && SamePlace(p, q)
      && q.currentAttempt == 0 && p.compensableStepIndices != []
    case UndoNext =>
      && Idle(p, Compensating) && Idle(q, Compensating)
      && q.nextStepIndex == p.nextStepIndex && |p.compensableStepIndices| >= 2
      && q.compensableStepIndices == p.compensableStepIndices[..|p.compensableStepIndices| - 1]
      && q.currentAttempt == 0
    case UndoLast =>
      && Idle(p, Compensating) && Idle(q, Compensated)
      && q.nextStepIndex == p.nextStepIndex && |p.compensableStepIndices| == 1 && q.compensableStepIndices == []
      && q.currentAttempt == p.currentAttempt
    case RetryUndo =>
      && Idle(p, Compensating) && Idle(q, Compensating) && SamePlace(p, q)
      && p.compensableStepIndices != [] && Top(p.compensableStepIndices) < |d.steps|
      && var plan := d.steps[Top(p.compensableStepIndices)].compensation;
      && plan.Some? && plan.value.retryPolicy.backoff.None?
      && q.currentAttempt == p.currentAttempt + 1 < plan.value.retryPolicy.maxAttempts
    case Resume =>
      && Idle(p, Escalated) && Idle(q, Running) && SamePlace(p, q) && q.currentAttempt == p.currentAttempt
    case UndoByHand =>
      && Idle(p, Escalated) && Idle(q, Compensating) && SamePlace(p, q)
      && q.currentAttempt == 0 && p.compensableStepIndices != []
    case CancelByHand =>
      Idle(p, Escalated) && Idle(q, Cancelled) && SamePlace(p, q) && q.currentAttempt == p.currentAttempt
    case StayEscalated =>
      Idle(p, Escalated) && q == p
  }

  // Which inputs cause which moves.
  ghost predicate Causes(p: LinearSagaProjection, input: LinearSagaInput, move: Move) {
    && (ByHand(move) <==> input.ManualResolution?)
    && (move.TimerFires? <==> input.RetryTimerFiredInput?)
    && ((move.Advance? || move.Finish? || move.UndoNext? || move.UndoLast?) <==>
          input.ActionResultInput? && input.observation.result == Succeeded)
    && (move.RetryLater? ==> input.RetryTimerScheduledInput?)
    && (move.RetryNow? || move.RetryUndo? ==> input.ActionResultInput? && input.observation.result == RetryableFailure)
    && !input.Start?
  }

  lemma ForwardMove(s: Instance, p: LinearSagaProjection, result: ActionResult, next: Option<ActionId>, q: SagaDecision)
    returns (move: Move)
    requires p.nextStepIndex < |s.definition.steps| && Idle(p, Running)
    requires ApplyForwardResult(s, p, result, next) == Ok(q)
    ensures Took(s.definition, p, q.projection, move)
    ensures move.Advance? || move.Finish? <==> result == Succeeded
    ensures move.Advance? || move.Finish? || move.GiveUp? || move.BeginUndo? || (move.RetryNow? && result == RetryableFailure)
  {
    var d := s.definition;
    match result
    case Succeeded =>
      move := if p.nextStepIndex + 1 == |d.steps| then Finish else Advance;
    case RetryableFailure =>
      if p.currentAttempt + 1 < d.steps[p.nextStepIndex].retryPolicy.maxAttempts {
        move := RetryNow;
      } else {
        move := if p.compensableStepIndices == [] then GiveUp else BeginUndo;
      }
    case TerminalFailure =>
      move := if p.compensableStepIndices == [] then GiveUp else BeginUndo;
    case Unknown =>
      move := GiveUp;
  }

  lemma CompensationMove(s: Instance, p: LinearSagaProjection, result: ActionResult, next: Option<ActionId>, q: SagaDecision)
    returns (move: Move)
    requires p.nextStepIndex < |s.definition.steps| && Idle(p, Compensating) && p.compensableStepIndices != []
    requires ApplyCompensationResult(s, p, result, next) == Ok(q)
    ensures Took(s.definition, p, q.projection, move)
    ensures move.UndoNext? || move.UndoLast? <==> result == Succeeded
    ensures move.UndoNext? || move.UndoLast? || move.GiveUp? || (move.RetryUndo? && result == RetryableFailure)
  {
    var d := s.definition;
    match result
    case Succeeded =>
      move := if |p.compensableStepIndices| == 1 then UndoLast else UndoNext;
    case RetryableFailure =>
      var plan := d.steps[Top(p.compensableStepIndices)].compensation.value;
      move := if p.currentAttempt + 1 < plan.retryPolicy.maxAttempts then RetryUndo else GiveUp;
    case TerminalFailure =>
      move := GiveUp;
    case Unknown =>
      move := GiveUp;
  }

  // Which transition takes the result in.
  ghost predicate Dispatched(s: Instance, p: LinearSagaProjection, result: ActionResult, next: Option<ActionId>, q: SagaDecision) {
    && p.nextStepIndex < |s.definition.steps|
    && (if p.status == Running then Idle(p, Running) && ApplyForwardResult(s, p, result, next) == Ok(q)
        else Idle(p, Compensating) && p.compensableStepIndices != [] && ApplyCompensationResult(s, p, result, next) == Ok(q))
  }

  lemma ResultIsDispatched(s: Instance, decision: SagaDecision, input: LinearSagaInput, q: SagaDecision)
    requires Consistent(s, decision) && input.ActionResultInput?
    requires Decide(s, Some(decision.projection), input) == Ok(q)
    ensures Dispatched(s, decision.projection, input.observation.result, input.nextActionId, q)
  {
  }

  lemma DispatchedMove(s: Instance, p: LinearSagaProjection, input: LinearSagaInput, q: SagaDecision) returns (move: Move)
    requires input.ActionResultInput? && Dispatched(s, p, input.observation.result, input.nextActionId, q)
    ensures Took(s.definition, p, q.projection, move) && Causes(p, input, move)
  {
    if p.status == Running {
      move := ForwardMove(s, p, input.observation.result, input.nextActionId, q);
    } else {
      move := CompensationMove(s, p, input.observation.result, input.nextActionId, q);
    }
  }

  lemma ResultMove(s: Instance, decision: SagaDecision, input: LinearSagaInput, q: SagaDecision) returns (move: Move)
    requires Consistent(s, decision) && input.ActionResultInput?
    requires Decide(s, Some(decision.projection), input) == Ok(q)
    ensures Took(s.definition, decision.projection, q.projection, move)
    ensures Causes(decision.projection, input, move)
  {
    ResultIsDispatched(s, decision, input, q);
    move := DispatchedMove(s, decision.projection, input, q);
  }

  lemma ScheduleMove(s: Instance, decision: SagaDecision, request: RetryTimerScheduleRequest, q: SagaDecision) returns (move: Move)
    requires Consistent(s, decision) && ScheduleRetryTimer(s, decision.projection, request) == Ok(q)
    ensures Took(s.definition, decision.projection, q.projection, move)
    ensures move.RetryLater? || move.GiveUp? || move.BeginUndo?
  {
    if q.projection.retryDueAt.Some? {
      move := RetryLater;
    } else {
      move := if decision.projection.compensableStepIndices == [] then GiveUp else BeginUndo;
    }
  }

  lemma TimerMove(s: Instance, decision: SagaDecision, input: LinearSagaInput, q: SagaDecision) returns (move: Move)
    requires Consistent(s, decision)
    requires input.RetryTimerScheduledInput? || input.RetryTimerFiredInput?
    requires Decide(s, Some(decision.projection), input) == Ok(q)
    ensures Took(s.definition, decision.projection, q.projection, move)
    ensures Causes(decision.projection, input, move)
  {
    if input.RetryTimerFiredInput? {
      move := TimerFires;
    } else {
      move := ScheduleMove(s, decision, input.request, q);
    }
  }

  lemma ManualMove(s: Instance, decision: SagaDecision, input: LinearSagaInput, q: SagaDecision) returns (move: Move)
    requires Consistent(s, decision) && input.ManualResolution?
    requires Decide(s, Some(decision.projection), input) == Ok(q)
    ensures Took(s.definition, decision.projection, q.projection, move)
    ensures Causes(decision.projection, input, move)
  {
    match input.resolution
    case RetryAction => move := Resume;
    case Compensate => move := if decision.projection.compensableStepIndices == [] then CancelByHand else UndoByHand;
    case Cancel => move := CancelByHand;
    case Escalate => move := StayEscalated;
  }

  // Every accepted input moves a consistent decision in one of the listed ways.
  lemma EveryInputIsAMove(s: Instance, decision: SagaDecision, input: LinearSagaInput, q: SagaDecision) returns (move: Move)
    requires Consistent(s, decision)
    requires Decide(s, Some(decision.projection), input) == Ok(q)
    ensures Took(s.definition, decision.projection, q.projection, move)
    ensures Causes(decision.projection, input, move)
  {
    match input
    case Start(_, _) => move := GiveUp; assert false;
    case ActionResultInput(_, _, _) => move := ResultMove(s, decision, input, q);
    case RetryTimerScheduledInput(_, _) => move := TimerMove(s, decision, input, q);
    case RetryTimerFiredInput(_, _, _, _) => move := TimerMove(s, decision, input, q);
    case ManualResolution(_, _, _) => move := ManualMove(s, decision, input, q);
  }
}
