// Which input is accepted when, which move it calls for, and what a refusal means
// (crates/penelope-executor/src/engine.rs).
module LinearDecisions {
  import opened Wrappers
  import opened Domain
  import opened SagaDefinition
  import opened LinearEngine
  import opened LinearInvariants
  import opened LinearMoves

  // ------------------------------------------------------------------- what is observed

  predicate Reports(input: LinearSagaInput, result: ActionResult) {
    input.ActionResultInput? && input.observation.result == result
  }

  predicate Resolves(input: LinearSagaInput, resolution: ManualReviewResolution) {
    input.ManualResolution? && input.resolution == resolution
  }

  // Another attempt is within this policy.
  predicate AttemptsLeft(policy: RetryPolicy, p: LinearSagaProjection) {
    p.currentAttempt + 1 < policy.maxAttempts
  }

  // The retry policy of the compensation on top of the stack.
  ghost predicate TopPolicy(d: LinearSagaDefinition, p: LinearSagaProjection, policy: RetryPolicy) {
    && p.compensableStepIndices != [] && Top(p.compensableStepIndices) < |d.steps|
    && d.steps[Top(p.compensableStepIndices)].compensation.Some?
    && d.steps[Top(p.compensableStepIndices)].compensation.value.retryPolicy == policy
  }

  // The schedule of a retry that the step's policy allows, due at this time.
  ghost predicate Schedules(policy: RetryPolicy, p: LinearSagaProjection, input: LinearSagaInput, due: LogicalTime) {
    && input.RetryTimerScheduledInput? && input.request.observation.result == RetryableFailure
    && policy.backoff.Some? && AttemptsLeft(policy, p)
    && RetryDueAt(policy, input.request.observedAt, p.currentAttempt, input.request.jitterSeed) == Ok(Some(due))
  }

  ghost predicate InTime(policy: RetryPolicy, p: LinearSagaProjection, input: LinearSagaInput) {
    exists due: LogicalTime :: Schedules(policy, p, input, due)
      && (input.request.retryDeadline.Some? ==> due <= input.request.retryDeadline.value)
  }

  ghost predicate TooLate(policy: RetryPolicy, p: LinearSagaProjection, input: LinearSagaInput) {
    exists due: LogicalTime :: Schedules(policy, p, input, due)
      && input.request.retryDeadline.Some? && due > input.request.retryDeadline.value
  }

  // The forward step has failed for good.
  ghost predicate StepFails(policy: RetryPolicy, p: LinearSagaProjection, input: LinearSagaInput) {
    || Reports(input, TerminalFailure)
    || (Reports(input, RetryableFailure) && !AttemptsLeft(policy, p))
    || TooLate(policy, p, input)
  }

  // ------------------------------------------------------------- the move called for

  // The one move that status, observation, policy, attempt, stack and deadline call for.
  ghost predicate CallsFor(d: LinearSagaDefinition, p: LinearSagaProjection, input: LinearSagaInput, move: Move) {
    && p.nextStepIndex < |d.steps|
    && var policy := d.steps[p.nextStepIndex].retryPolicy;
    match move
    case Advance => p.status == Running && Reports(input, Succeeded) && p.nextStepIndex + 1 < |d.steps|
    case Finish => p.status == Running && Reports(input, Succeeded) && p.nextStepIndex + 1 == |d.steps|
    case RetryNow => p.status == Running && Reports(input, RetryableFailure) && AttemptsLeft(policy, p) && policy.backoff.None?
    case RetryLater => p.status == Running && InTime(policy, p, input)
    case TimerFires => p.status == Running && input.RetryTimerFiredInput?
    case GiveUp =>
      || (p.status == Running && Reports(input, Unknown))
      || (p.status == Running && StepFails(policy, p, input) && p.compensableStepIndices == [])
      || (p.status == Compensating && (Reports(input, Unknown) || Reports(input, TerminalFailure)))
      || (p.status == Compensating && Reports(input, RetryableFailure)
          && exists undo :: TopPolicy(d, p, undo) && !AttemptsLeft(undo, p))
    case BeginUndo => p.status == Running && StepFails(policy, p, input) && p.compensableStepIndices != []
    case UndoNext => p.status == Compensating && Reports(input, Succeeded) && |p.compensableStepIndices| >= 2
    case UndoLast => p.status == Compensating && Reports(input, Succeeded) && |p.compensableStepIndices| == 1
    case RetryUndo =>
      && p.status == Compensating && Reports(input, RetryableFailure)
      && exists undo :: TopPolicy(d, p, undo) && AttemptsLeft(undo, p) && undo.backoff.None?
    case Resume => p.status == Escalated && Resolves(input, RetryAction)
    case UndoByHand => p.status == Escalated && Resolves(input, Compensate) && p.compensableStepIndices != []
    case CancelByHand =>
      && p.status == Escalated
      && (Resolves(input, Cancel) || (Resolves(input, Compensate) && p.compensableStepIndices == []))
    case StayEscalated => p.status == Escalated && Resolves(input, Escalate)
  }

  // The move took place and the input is of the kind that causes it.
  ghost predicate Happened(d: LinearSagaDefinition, p: LinearSagaProjection, input: LinearSagaInput, q: LinearSagaProjection, move: Move) {
    Took(d, p, q, move) && Causes(p, input, move)
  }

  lemma CallsAreUnique(d: LinearSagaDefinition, p: LinearSagaProjection, input: LinearSagaInput, a: Move, b: Move)
    requires CallsFor(d, p, input, a) && CallsFor(d, p, input, b)
    ensures a == b
  {
  }

  lemma MovesAreUnique(d: LinearSagaDefinition, p: LinearSagaProjection, input: LinearSagaInput, q: LinearSagaProjection, a: Move, b: Move)
    requires Happened(d, p, input, q, a) && Happened(d, p, input, q, b)
    ensures a == b
  {
  }

  lemma ForwardCall(s: Instance, p: LinearSagaProjection, input: LinearSagaInput, q: SagaDecision) returns (move: Move)
    requires input.ActionResultInput? && p.status == Running
    requires Dispatched(s, p, input.observation.result, input.nextActionId, q)
    ensures Happened(s.definition, p, input, q.projection, move) && CallsFor(s.definition, p, input, move)
  {
    move := ForwardMove(s, p, input.observation.result, input.nextActionId, q);
  }

  lemma UndoCall(s: Instance, p: LinearSagaProjection, input: LinearSagaInput, q: SagaDecision) returns (move: Move)
    requires input.ActionResultInput? && p.status == Compensating
    requires Dispatched(s, p, input.observation.result, input.nextActionId, q)
    ensures Happened(s.definition, p, input, q.projection, move) && CallsFor(s.definition, p, input, move)
  {
    move := CompensationMove(s, p, input.observation.result, input.nextActionId, q);
    assert TopPolicy(s.definition, p, s.definition.steps[Top(p.compensableStepIndices)].compensation.value.retryPolicy);
  }

  lemma ScheduleOutcome(s: Instance, decision: SagaDecision, input: LinearSagaInput, q: SagaDecision, policy: RetryPolicy)
    returns (due: LogicalTime)
    requires Consistent(s, decision) && input.RetryTimerScheduledInput?
    requires ScheduleRetryTimer(s, decision.projection, input.request) == Ok(q)
    requires decision.projection.nextStepIndex < |s.definition.steps| && policy == s.definition.steps[decision.projection.nextStepIndex].retryPolicy
    ensures decision.projection.status == Running && Schedules(policy, decision.projection, input, due)
    ensures q.projection.retryDueAt.None? <==> input.request.retryDeadline.Some? && due > input.request.retryDeadline.value
    ensures q.projection.retryDueAt.Some? ==> q.projection.retryDueAt.value == due
    ensures q.projection.retryDueAt.None? ==> (q.projection.status == Escalated <==> decision.projection.compensableStepIndices == [])
  {
    due := RetryDueAt(policy, input.request.observedAt, decision.projection.currentAttempt, input.request.jitterSeed).value.value;
  }

  lemma ScheduleCall(s: Instance, decision: SagaDecision, input: LinearSagaInput, q: SagaDecision) returns (move: Move)
    requires Consistent(s, decision) && input.RetryTimerScheduledInput?
    requires ScheduleRetryTimer(s, decision.projection, input.request) == Ok(q)
    ensures Happened(s.definition, decision.projection, input, q.projection, move)
    ensures CallsFor(s.definition, decision.projection, input, move)
  {
    move := ScheduleMove(s, decision, input.request, q);
    var due := ScheduleOutcome(s, decision, input, q, s.definition.steps[decision.projection.nextStepIndex].retryPolicy);
    ScheduleIsCalled(s.definition, decision.projection, input, q.projection, move, due);
  }

  lemma ScheduleIsCalled(d: LinearSagaDefinition, p: LinearSagaProjection, input: LinearSagaInput, q: LinearSagaProjection, move: Move, due: LogicalTime)
    requires Took(d, p, q, move) && (move.RetryLater? || move.GiveUp? || move.BeginUndo?) && p.status == Running
    requires Schedules(d.steps[p.nextStepIndex].retryPolicy, p, input, due)
    requires q.retryDueAt.None? <==> input.request.retryDeadline.Some? && due > input.request.retryDeadline.value
    requires q.retryDueAt.None? ==> (q.status == Escalated <==> p.compensableStepIndices == [])
    ensures CallsFor(d, p, input, move)
  {
  }

  lemma FiringCall(s: Instance, decision: SagaDecision, input: LinearSagaInput, q: SagaDecision) returns (move: Move)
    requires Consistent(s, decision) && input.RetryTimerFiredInput?
    requires Decide(s, Some(decision.projection), input) == Ok(q)
    ensures Happened(s.definition, decision.projection, input, q.projection, move)
    ensures CallsFor(s.definition, decision.projection, input, move)
  {
    move := TimerMove(s, decision, input, q);
  }

  lemma HandCall(s: Instance, decision: SagaDecision, input: LinearSagaInput, q: SagaDecision) returns (move: Move)
    requires Consistent(s, decision) && input.ManualResolution?
    requires Decide(s, Some(decision.projection), input) == Ok(q)
    ensures Happened(s.definition, decision.projection, input, q.projection, move)
    ensures CallsFor(s.definition, decision.projection, input, move)
  {
    move := ManualMove(s, decision, input, q);
  }

  lemma SomeCall(s: Instance, decision: SagaDecision, input: LinearSagaInput, q: SagaDecision) returns (move: Move)
    requires Consistent(s, decision) && Decide(s, Some(decision.projection), input) == Ok(q)
    ensures Happened(s.definition, decision.projection, input, q.projection, move)
    ensures CallsFor(s.definition, decision.projection, input, move)
  {
    match input
    case Start(_, _) => move := GiveUp; assert false;
    case ActionResultInput(_, _, _) =>
      ResultIsDispatched(s, decision, input, q);
      if decision.projection.status == Running {
        move := ForwardCall(s, decision.projection, input, q);
      } else {
        move := UndoCall(s, decision.projection, input, q);
      }
    case RetryTimerScheduledInput(_, _) => move := ScheduleCall(s, decision, input, q);
    case RetryTimerFiredInput(_, _, _, _) => move := FiringCall(s, decision, input, q);
    case ManualResolution(_, _, _) => move := HandCall(s, decision, input, q);
  }

  // From a consistent decision the accepted input makes exactly the move that the
  // situation calls for.
  lemma MoveIsDetermined(s: Instance, decision: SagaDecision, input: LinearSagaInput, q: SagaDecision)
    requires Consistent(s, decision) && Decide(s, Some(decision.projection), input) == Ok(q)
    ensures exists move :: CallsFor(s.definition, decision.projection, input, move)
    ensures forall move :: Happened(s.definition, decision.projection, input, q.projection, move)
                      <==> CallsFor(s.definition, decision.projection, input, move)
  {
    var called := SomeCall(s, decision, input, q);
    forall move
      ensures Happened(s.definition, decision.projection, input, q.projection, move)
         <==> CallsFor(s.definition, decision.projection, input, move)
    {
      if Happened(s.definition, decision.projection, input, q.projection, move) {
        MovesAreUnique(s.definition, decision.projection, input, q.projection, move, called);
      }
      if CallsFor(s.definition, decision.projection, input, move) {
        CallsAreUnique(s.definition, decision.projection, input, move, called);
      }
    }
  }

  // -------------------------------------------------------------------- acceptance

  // Moves that plan an action.
  predicate Plans(move: Move) {
    || move.Advance? || move.RetryNow? || move.RetryLater? || move.TimerFires? || move.BeginUndo?
    || move.UndoNext? || move.RetryUndo? || move.Resume? || move.UndoByHand?
  }

  function Offered(input: LinearSagaInput): Option<ActionId> {
    match input
    case Start(_, actionId) => Some(actionId)
    case ActionResultInput(_, _, next) => next
    case RetryTimerScheduledInput(_, request) => request.nextActionId
    case RetryTimerFiredInput(_, _, _, retry) => Some(retry)
    case ManualResolution(_, _, resume) => resume
  }

  // The input speaks of what is in progress: the active action with no timer
  // pending, or the pending timer once it is due.
  predicate Answers(p: LinearSagaProjection, input: LinearSagaInput) {
    match input
    case Start(_, _) => false
    case ActionResultInput(_, observation, _) => p.activeActionId == Some(observation.actionId) && p.retryDueAt.None?
    case RetryTimerScheduledInput(_, request) => p.activeActionId == Some(request.observation.actionId) && p.retryDueAt.None?
    case RetryTimerFiredInput(_, timer, firedAt, _) =>
      p.activeActionId == Some(timer) && p.retryDueAt.Some? && p.retryDueAt.value <= firedAt
    case ManualResolution(_, _, _) => true
  }

  // An identity is offered that was never issued.
  predicate OffersNew(p: LinearSagaProjection, input: LinearSagaInput) {
    Offered(input).Some? && Offered(input).value !in p.issuedActionIds
  }

  ghost predicate AcceptedAs(d: LinearSagaDefinition, p: LinearSagaProjection, input: LinearSagaInput, move: Move) {
    CallsFor(d, p, input, move) && Answers(p, input) && (Plans(move) ==> OffersNew(p, input))
  }

  // What the move leaves besides place, attempt and status: the identities, and the
  // due time of a retry that waits.
  ghost predicate Leaves(d: LinearSagaDefinition, p: LinearSagaProjection, input: LinearSagaInput, q: LinearSagaProjection, move: Move) {
    && (Plans(move) ==> Offered(input).Some? && q.activeActionId == Offered(input)
                        && q.issuedActionIds == p.issuedActionIds + [Offered(input).value])
    && (!Plans(move) ==> q.activeActionId == None && q.issuedActionIds == p.issuedActionIds)
    && (move.RetryLater? ==> p.nextStepIndex < |d.steps| && q.retryDueAt.Some?
                             && Schedules(d.steps[p.nextStepIndex].retryPolicy, p, input, q.retryDueAt.value))
    && (!move.RetryLater? ==> q.retryDueAt == None)
  }

  lemma ForwardAccepts(s: Instance, p: LinearSagaProjection, input: LinearSagaInput, move: Move)
    requires input.ActionResultInput? && Idle(p, Running) && p.currentAttempt < U32_MAX && AcceptedAs(s.definition, p, input, move)
    requires CompensationStack(s.definition, p.compensableStepIndices, p.nextStepIndex)
    ensures ApplyForwardResult(s, p, input.observation.result, input.nextActionId).Ok?
  {
  }

  lemma UndoAccepts(s: Instance, p: LinearSagaProjection, input: LinearSagaInput, move: Move)
    requires input.ActionResultInput? && Idle(p, Compensating) && p.currentAttempt < U32_MAX && AcceptedAs(s.definition, p, input, move)
    requires CompensationStack(s.definition, p.compensableStepIndices, p.nextStepIndex) && p.compensableStepIndices != []
    ensures ApplyCompensationResult(s, p, input.observation.result, input.nextActionId).Ok?
  {
  }

  lemma ResultAccepts(s: Instance, decision: SagaDecision, input: LinearSagaInput, move: Move)
    requires Consistent(s, decision) && input.ActionResultInput? && AcceptedAs(s.definition, decision.projection, input, move)
    ensures Decide(s, Some(decision.projection), input).Ok?
  {
    if decision.projection.status == Running {
      ForwardAccepts(s, decision.projection, input, move);
    } else {
      UndoAccepts(s, decision.projection, input, move);
    }
  }

  lemma TimerAccepts(s: Instance, decision: SagaDecision, input: LinearSagaInput, move: Move)
    requires Consistent(s, decision) && AcceptedAs(s.definition, decision.projection, input, move)
    requires input.RetryTimerScheduledInput? || input.RetryTimerFiredInput?
    ensures Decide(s, Some(decision.projection), input).Ok?
  {
  }

  lemma HandAccepts(s: Instance, decision: SagaDecision, input: LinearSagaInput, move: Move)
    requires Consistent(s, decision) && input.ManualResolution? && AcceptedAs(s.definition, decision.projection, input, move)
    ensures Decide(s, Some(decision.projection), input).Ok?
  {
  }

  lemma CalledIsAccepted(s: Instance, decision: SagaDecision, input: LinearSagaInput, move: Move)
    requires Consistent(s, decision) && AcceptedAs(s.definition, decision.projection, input, move)
    ensures Decide(s, Some(decision.projection), input).Ok?
  {
    match input
    case Start(_, _) =>
    case ActionResultInput(_, _, _) => ResultAccepts(s, decision, input, move);
    case RetryTimerScheduledInput(_, _) => TimerAccepts(s, decision, input, move);
    case RetryTimerFiredInput(_, _, _, _) => TimerAccepts(s, decision, input, move);
    case ManualResolution(_, _, _) => HandAccepts(s, decision, input, move);
  }

  lemma AcceptedAnswers(s: Instance, decision: SagaDecision, input: LinearSagaInput, q: SagaDecision)
    requires Consistent(s, decision) && Decide(s, Some(decision.projection), input) == Ok(q)
    ensures Answers(decision.projection, input)
  {
  }

  lemma ForwardLeaves(s: Instance, p: LinearSagaProjection, input: LinearSagaInput, q: SagaDecision, move: Move)
    requires input.ActionResultInput? && p.status == Running && CallsFor(s.definition, p, input, move)
    requires Dispatched(s, p, input.observation.result, input.nextActionId, q)
    ensures Leaves(s.definition, p, input, q.projection, move) && (Plans(move) ==> OffersNew(p, input))
  {
  }

  lemma UndoLeaves(s: Instance, p: LinearSagaProjection, input: LinearSagaInput, q: SagaDecision, move: Move)
    requires input.ActionResultInput? && p.status == Compensating && CallsFor(s.definition, p, input, move)
    requires Dispatched(s, p, input.observation.result, input.nextActionId, q)
    ensures Leaves(s.definition, p, input, q.projection, move) && (Plans(move) ==> OffersNew(p, input))
  {
  }

  lemma ScheduleLeaves(s: Instance, decision: SagaDecision, input: LinearSagaInput, q: SagaDecision, move: Move)
    requires Consistent(s, decision) && input.RetryTimerScheduledInput? && CallsFor(s.definition, decision.projection, input, move)
    requires ScheduleRetryTimer(s, decision.projection, input.request) == Ok(q)
    ensures Leaves(s.definition, decision.projection, input, q.projection, move)
    ensures Plans(move) ==> OffersNew(decision.projection, input)
  {
  }

  lemma OtherLeaves(s: Instance, decision: SagaDecision, input: LinearSagaInput, q: SagaDecision, move: Move)
    requires Consistent(s, decision) && CallsFor(s.definition, decision.projection, input, move)
    requires input.RetryTimerFiredInput? || input.ManualResolution?
    requires Decide(s, Some(decision.projection), input) == Ok(q)
    ensures Leaves(s.definition, decision.projection, input, q.projection, move)
    ensures Plans(move) ==> OffersNew(decision.projection, input)
  {
  }

  lemma MoveLeaves(s: Instance, decision: SagaDecision, input: LinearSagaInput, q: SagaDecision, move: Move)
    requires Consistent(s, decision) && Decide(s, Some(decision.projection), input) == Ok(q)
    requires CallsFor(s.definition, decision.projection, input, move)
    ensures Leaves(s.definition, decision.projection, input, q.projection, move)
    ensures Plans(move) ==> OffersNew(decision.projection, input)
  {
    match input
    case Start(_, _) =>
    case ActionResultInput(_, _, _) =>
      ResultIsDispatched(s, decision, input, q);
      if decision.projection.status == Running {
        ForwardLeaves(s, decision.projection, input, q, move);
      } else {
        UndoLeaves(s, decision.projection, input, q, move);
      }
    case RetryTimerScheduledInput(_, _) => ScheduleLeaves(s, decision, input, q, move);
    case RetryTimerFiredInput(_, _, _, _) => OtherLeaves(s, decision, input, q, move);
    case ManualResolution(_, _, _) => OtherLeaves(s, decision, input, q, move);
  }

  // From a consistent decision an input is accepted exactly when it answers what is
  // in progress, calls for a move, and offers a new identity if that move plans an
  // action; the move then leaves the identities and due time so determined.
  lemma AcceptedIff(s: Instance, decision: SagaDecision, input: LinearSagaInput)
    requires Consistent(s, decision)
    ensures Decide(s, Some(decision.projection), input).Ok? <==>
              exists move :: AcceptedAs(s.definition, decision.projection, input, move)
    ensures forall move :: Decide(s, Some(decision.projection), input).Ok? && CallsFor(s.definition, decision.projection, input, move) ==>
              && Took(s.definition, decision.projection, Decide(s, Some(decision.projection), input).value.projection, move)
              && Leaves(s.definition, decision.projection, input, Decide(s, Some(decision.projection), input).value.projection, move)
  {
    var r := Decide(s, Some(decision.projection), input);
    if r.Ok? {
      var called := SomeCall(s, decision, input, r.value);
      AcceptedAnswers(s, decision, input, r.value);
      MoveLeaves(s, decision, input, r.value, called);
      assert AcceptedAs(s.definition, decision.projection, input, called);
      forall move | CallsFor(s.definition, decision.projection, input, move)
        ensures Took(s.definition, decision.projection, r.value.projection, move)
        ensures Leaves(s.definition, decision.projection, input, r.value.projection, move)
      {
        CallsAreUnique(s.definition, decision.projection, input, move, called);
      }
    }
    if move :| AcceptedAs(s.definition, decision.projection, input, move) {
      CalledIsAccepted(s, decision, input, move);
    }
  }

  // -------------------------------------------------------------- the planned action

  // A working saga plans exactly one action: a timer of the step that waits, the
  // step itself, or the compensation on top of the stack.
  lemma PlannedActionIs(s: Instance, decision: SagaDecision) returns (i: nat)
    requires Consistent(s, decision) && Working(decision.projection)
    ensures i < |s.definition.steps| && decision.projection.activeActionId.Some?
    ensures decision.projection.status == Running ==> i == decision.projection.nextStepIndex
    ensures decision.projection.status == Compensating ==>
      && decision.projection.compensableStepIndices != [] && i == Top(decision.projection.compensableStepIndices)
      && s.definition.steps[i].compensation.Some?
    ensures var step, p := s.definition.steps[i], decision.projection;
      decision.nextAction == Some(ProcessAction(
        ProcessScope(s.tenantId, s.processId, s.definition.definitionId, s.definition.definitionVersion, s.definition.definitionDigest),
        p.activeActionId.value, step.stepId, p.currentAttempt,
        if p.retryDueAt.Some? then Timer else if p.status == Running then step.actionKind else step.compensation.value.actionKind,
        if p.status == Running then step.payloadDigest else step.compensation.value.payloadDigest))
  {
    i := if decision.projection.status == Running then decision.projection.nextStepIndex else Top(decision.projection.compensableStepIndices);
  }

  // A saga starts exactly for valid definitions: at the first step, its first attempt.
  lemma StartIff(s: Instance, id: InputId, actionId: ActionId)
    ensures Decide(s, None, Start(id, actionId)).Ok? <==> ValidDefinition(s.definition)
    ensures Decide(s, None, Start(id, actionId)).Ok? ==>
      var p := Decide(s, None, Start(id, actionId)).value.projection;
      && Idle(p, Running) && p.nextStepIndex == 0 && p.currentAttempt == 0 && p.compensableStepIndices == []
      && p.activeActionId == Some(actionId) && p.issuedActionIds == [actionId]
      && p.definitionId == s.definition.definitionId && p.definitionVersion == s.definition.definitionVersion
      && p.definitionDigest == s.definition.definitionDigest
  {
    StartPlans(s, actionId);
  }

  lemma StartPlans(s: Instance, actionId: ActionId)
    ensures ValidDefinition(s.definition) ==> StartSaga(s, actionId).Ok?
  {
  }

  // -------------------------------------------------------------------- refusals

  // The move a refused input called for would have planned an action.
  ghost predicate CalledPlan(d: LinearSagaDefinition, p: LinearSagaProjection, input: LinearSagaInput) {
    exists move :: CallsFor(d, p, input, move) && Plans(move)
  }

  predicate OfTimer(input: LinearSagaInput) {
    input.RetryTimerScheduledInput? || input.RetryTimerFiredInput?
  }

  function ObservedAction(input: LinearSagaInput): Option<ActionId> {
    match input
    case ActionResultInput(_, observation, _) => Some(observation.actionId)
    case RetryTimerScheduledInput(_, request) => Some(request.observation.actionId)
    case _ => None
  }

  // What each refusal of a started saga says about the input and the state.
  ghost predicate Blames(d: LinearSagaDefinition, p: LinearSagaProjection, input: LinearSagaInput, e: EngineError) {
    && (e == StartWithProjection <==> input.Start?)
    && match e
       case StartWithProjection => true
       case TerminalProjection => (input.ActionResultInput? && !Working(p)) || (OfTimer(input) && p.status != Running)
       case ManualResolutionRequiresEscalation => input.ManualResolution? && p.status != Escalated
       case UnexpectedAction => ObservedAction(input).Some? && p.activeActionId != ObservedAction(input)
       case RetryTimerMustFire => ObservedAction(input).Some? && p.retryDueAt.Some?
       case UnexpectedRetryTimer =>
         input.RetryTimerFiredInput? && (p.activeActionId != Some(input.timerActionId) || p.retryDueAt.None?)
       case RetryTimerFiredEarly => input.RetryTimerFiredInput? && p.retryDueAt.Some? && input.firedAt < p.retryDueAt.value
       case RetryTimerRequired =>
         && Reports(input, RetryableFailure) && p.nextStepIndex < |d.steps|
         && exists policy :: PolicyInForce(d, p, policy) && policy.backoff.Some? && AttemptsLeft(policy, p)
       case RetryTimerRequiresRetryableFailure =>
         input.RetryTimerScheduledInput? && input.request.observation.result != RetryableFailure
       case RetryTimerNotConfigured =>
         input.RetryTimerScheduledInput? && p.nextStepIndex < |d.steps| && d.steps[p.nextStepIndex].retryPolicy.backoff.None?
       case RetryTimerNotRequired =>
         input.RetryTimerScheduledInput? && p.nextStepIndex < |d.steps| && !AttemptsLeft(d.steps[p.nextStepIndex].retryPolicy, p)
       case RetryDueTimeOverflow =>
         && input.RetryTimerScheduledInput? && p.nextStepIndex < |d.steps|
         && RetryDueAt(d.steps[p.nextStepIndex].retryPolicy, input.request.observedAt, p.currentAttempt, input.request.jitterSeed).Err?
       case MissingNextAction => CalledPlan(d, p, input) && Offered(input).None?
       case ReusedActionId => CalledPlan(d, p, input) && Offered(input).Some? && Offered(input).value in p.issuedActionIds
       case _ => false
  }

  // The retry policy of what is being attempted.
  ghost predicate PolicyInForce(d: LinearSagaDefinition, p: LinearSagaProjection, policy: RetryPolicy) {
    || (p.status == Running && p.nextStepIndex < |d.steps| && policy == d.steps[p.nextStepIndex].retryPolicy)
    || (p.status == Compensating && TopPolicy(d, p, policy))
  }

  // Offering no identity, or an old one, to a move that plans.
  lemma FreshRefusal(d: LinearSagaDefinition, p: LinearSagaProjection, input: LinearSagaInput, move: Move, e: EngineError)
    requires CallsFor(d, p, input, move) && Plans(move) && FreshActionId(p, Offered(input)) == Err(e)
    ensures Blames(d, p, input, e)
  {
  }

  lemma ForwardRefusal(s: Instance, p: LinearSagaProjection, input: LinearSagaInput, e: EngineError)
    requires input.ActionResultInput? && Idle(p, Running) && p.currentAttempt < U32_MAX && p.nextStepIndex < |s.definition.steps|
    requires CompensationStack(s.definition, p.compensableStepIndices, p.nextStepIndex) && p.activeActionId.Some?
    requires ApplyForwardResult(s, p, input.observation.result, input.nextActionId) == Err(e)
    ensures Blames(s.definition, p, input, e)
  {
    var policy := s.definition.steps[p.nextStepIndex].retryPolicy;
    if e == RetryTimerRequired {
      assert PolicyInForce(s.definition, p, policy);
    } else {
      var move := if input.observation.result == Succeeded then Advance
                  else if Reports(input, RetryableFailure) && AttemptsLeft(policy, p) then RetryNow else BeginUndo;
      assert CallsFor(s.definition, p, input, move);
      FreshRefusal(s.definition, p, input, move, e);
    }
  }

  lemma UndoRefusal(s: Instance, p: LinearSagaProjection, input: LinearSagaInput, e: EngineError)
    requires input.ActionResultInput? && Idle(p, Compensating) && p.currentAttempt < U32_MAX && p.nextStepIndex < |s.definition.steps|
    requires CompensationStack(s.definition, p.compensableStepIndices, p.nextStepIndex) && p.compensableStepIndices != []
    requires ApplyCompensationResult(s, p, input.observation.result, input.nextActionId) == Err(e)
    ensures Blames(s.definition, p, input, e)
  {
    var policy := s.definition.steps[Top(p.compensableStepIndices)].compensation.value.retryPolicy;
    assert TopPolicy(s.definition, p, policy);
    if e == RetryTimerRequired {
      assert PolicyInForce(s.definition, p, policy);
    } else {
      var move := if input.observation.result == Succeeded then UndoNext else RetryUndo;
      assert CallsFor(s.definition, p, input, move);
      FreshRefusal(s.definition, p, input, move, e);
    }
  }

  lemma ResultRefusal(s: Instance, decision: SagaDecision, input: LinearSagaInput, e: EngineError)
    requires Consistent(s, decision) && input.ActionResultInput? && Decide(s, Some(decision.projection), input) == Err(e)
    ensures Blames(s.definition, decision.projection, input, e)
  {
    var p := decision.projection;
    if Answers(p, input) && Working(p) {
      if p.status == Running {
        ForwardRefusal(s, p, input, e);
      } else {
        UndoRefusal(s, p, input, e);
      }
    }
  }

  predicate AboutIdentity(e: EngineError) {
    e == MissingNextAction || e == ReusedActionId
  }

  // Errors about the state the request came in, and about what it asks for.
  lemma ScheduleStateNames(s: Instance, decision: SagaDecision, input: LinearSagaInput, e: EngineError)
    requires Consistent(s, decision) && input.RetryTimerScheduledInput?
    requires decision.projection.status != Running || !Answers(decision.projection, input)
    requires ScheduleRetryTimer(s, decision.projection, input.request) == Err(e)
    ensures e == TerminalProjection || e == UnexpectedAction || e == RetryTimerMustFire
    ensures e == TerminalProjection ==> decision.projection.status != Running
    ensures e == UnexpectedAction ==> decision.projection.activeActionId != Some(input.request.observation.actionId)
    ensures e == RetryTimerMustFire ==> decision.projection.retryDueAt.Some?
  {
  }

  lemma ScheduleRequestNames(s: Instance, decision: SagaDecision, input: LinearSagaInput, policy: RetryPolicy, e: EngineError)
    requires Consistent(s, decision) && input.RetryTimerScheduledInput? && !AboutIdentity(e)
    requires decision.projection.status == Running && Answers(decision.projection, input)
    requires ScheduleRetryTimer(s, decision.projection, input.request) == Err(e)
    requires decision.projection.nextStepIndex < |s.definition.steps| && policy == s.definition.steps[decision.projection.nextStepIndex].retryPolicy
    ensures e in {RetryTimerRequiresRetryableFailure, RetryTimerNotConfigured, RetryTimerNotRequired, RetryDueTimeOverflow}
    ensures e == RetryTimerRequiresRetryableFailure ==> input.request.observation.result != RetryableFailure
    ensures e == RetryTimerNotConfigured ==> policy.backoff.None?
    ensures e == RetryTimerNotRequired ==> !AttemptsLeft(policy, decision.projection)
    ensures e == RetryDueTimeOverflow ==>
      RetryDueAt(policy, input.request.observedAt, decision.projection.currentAttempt, input.request.jitterSeed).Err?
  {
  }

  lemma ScheduleNames(s: Instance, decision: SagaDecision, input: LinearSagaInput, e: EngineError)
    requires Consistent(s, decision) && input.RetryTimerScheduledInput? && !AboutIdentity(e)
    requires ScheduleRetryTimer(s, decision.projection, input.request) == Err(e)
    ensures Blames(s.definition, decision.projection, input, e)
  {
    if decision.projection.status == Running && Answers(decision.projection, input) {
      ScheduleRequestNames(s, decision, input, s.definition.steps[decision.projection.nextStepIndex].retryPolicy, e);
    } else {
      ScheduleStateNames(s, decision, input, e);
    }
  }

  lemma ScheduleIsDue(s: Instance, decision: SagaDecision, input: LinearSagaInput, policy: RetryPolicy, e: EngineError) returns (due: LogicalTime)
    requires Consistent(s, decision) && input.RetryTimerScheduledInput? && AboutIdentity(e)
    requires ScheduleRetryTimer(s, decision.projection, input.request) == Err(e)
    requires decision.projection.nextStepIndex < |s.definition.steps| && policy == s.definition.steps[decision.projection.nextStepIndex].retryPolicy
    ensures decision.projection.status == Running && Schedules(policy, decision.projection, input, due)
    ensures FreshActionId(decision.projection, input.request.nextActionId) == Err(e)
    ensures input.request.retryDeadline.Some? && due > input.request.retryDeadline.value ==> decision.projection.compensableStepIndices != []
  {
    var p := decision.projection;
    due := RetryDueAt(policy, input.request.observedAt, p.currentAttempt, input.request.jitterSeed).value.value;
  }

  lemma ScheduleCalls(d: LinearSagaDefinition, p: LinearSagaProjection, input: LinearSagaInput, due: LogicalTime) returns (move: Move)
    requires p.nextStepIndex < |d.steps| && p.status == Running && Schedules(d.steps[p.nextStepIndex].retryPolicy, p, input, due)
    requires input.request.retryDeadline.Some? && due > input.request.retryDeadline.value ==> p.compensableStepIndices != []
    ensures CallsFor(d, p, input, move) && Plans(move)
  {
    move := if input.request.retryDeadline.Some? && due > input.request.retryDeadline.value then BeginUndo else RetryLater;
  }

  lemma ScheduleRefusal(s: Instance, decision: SagaDecision, input: LinearSagaInput, e: EngineError)
    requires Consistent(s, decision) && input.RetryTimerScheduledInput?
    requires ScheduleRetryTimer(s, decision.projection, input.request) == Err(e)
    ensures Blames(s.definition, decision.projection, input, e)
  {
    if AboutIdentity(e) {
      WorkingHasStep(s, decision, input, e);
      var policy := s.definition.steps[decision.projection.nextStepIndex].retryPolicy;
      var due := ScheduleIsDue(s, decision, input, policy, e);
      var move := ScheduleCalls(s.definition, decision.projection, input, due);
      FreshRefusal(s.definition, decision.projection, input, move, e);
    } else {
      ScheduleNames(s, decision, input, e);
    }
  }

  lemma WorkingHasStep(s: Instance, decision: SagaDecision, input: LinearSagaInput, e: EngineError)
    requires Consistent(s, decision) && input.RetryTimerScheduledInput? && AboutIdentity(e)
    requires ScheduleRetryTimer(s, decision.projection, input.request) == Err(e)
    ensures decision.projection.nextStepIndex < |s.definition.steps|
  {
  }

  lemma FiringNames(s: Instance, decision: SagaDecision, input: LinearSagaInput, e: EngineError)
    requires Consistent(s, decision) && input.RetryTimerFiredInput?
    requires FireRetryTimer(s, decision.projection, input.timerActionId, input.firedAt, input.retryActionId) == Err(e)
    ensures if AboutIdentity(e)
            then CallsFor(s.definition, decision.projection, input, TimerFires) && FreshActionId(decision.projection, Some(input.retryActionId)) == Err(e)
            else Blames(s.definition, decision.projection, input, e)
  {
  }

  lemma FiringRefusal(s: Instance, decision: SagaDecision, input: LinearSagaInput, e: EngineError)
    requires Consistent(s, decision) && input.RetryTimerFiredInput?
    requires FireRetryTimer(s, decision.projection, input.timerActionId, input.firedAt, input.retryActionId) == Err(e)
    ensures Blames(s.definition, decision.projection, input, e)
  {
    FiringNames(s, decision, input, e);
    if AboutIdentity(e) {
      FreshRefusal(s.definition, decision.projection, input, TimerFires, e);
    }
  }

  lemma HandNames(s: Instance, decision: SagaDecision, input: LinearSagaInput, move: Move, e: EngineError)
    requires Consistent(s, decision) && input.ManualResolution? && move == (if input.resolution == RetryAction then Resume else UndoByHand)
    requires ApplyManualResolution(s, decision.projection, input.resolution, input.resumeActionId) == Err(e)
    ensures if AboutIdentity(e)
            then CallsFor(s.definition, decision.projection, input, move) && FreshActionId(decision.projection, input.resumeActionId) == Err(e)
            else Blames(s.definition, decision.projection, input, e)
  {
  }

  lemma HandRefusal(s: Instance, decision: SagaDecision, input: LinearSagaInput, e: EngineError)
    requires Consistent(s, decision) && input.ManualResolution?
    requires ApplyManualResolution(s, decision.projection, input.resolution, input.resumeActionId) == Err(e)
    ensures Blames(s.definition, decision.projection, input, e)
  {
    var move := if input.resolution == RetryAction then Resume else UndoByHand;
    HandNames(s, decision, input, move, e);
    if AboutIdentity(e) {
      FreshRefusal(s.definition, decision.projection, input, move, e);
    }
  }

  // Every refusal from a consistent decision names something that is so.
  lemma RefusalsBlame(s: Instance, decision: SagaDecision, input: LinearSagaInput, e: EngineError)
    requires Consistent(s, decision) && Decide(s, Some(decision.projection), input) == Err(e)
    ensures Blames(s.definition, decision.projection, input, e)
  {
    match input
    case Start(_, _) =>
    case ActionResultInput(_, _, _) => ResultRefusal(s, decision, input, e);
    case RetryTimerScheduledInput(_, _) => ScheduleRefusal(s, decision, input, e);
    case RetryTimerFiredInput(_, _, _, _) => FiringRefusal(s, decision, input, e);
    case ManualResolution(_, _, _) => HandRefusal(s, decision, input, e);
  }
}
