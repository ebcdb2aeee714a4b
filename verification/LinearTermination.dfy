// Every run of the linear engine without manual resolutions is bounded by what
// its definition permits.
module LinearTermination {
  import opened Wrappers
  import opened Domain
  import opened SagaDefinition
  import opened LinearEngine
  import opened LinearInvariants
  import opened LinearMoves
  import opened LinearCompensation
  import opened LinearReplay

  function CompensationAttempts(step: StepPlan): nat {
    match step.compensation
    case None => 0
    case Some(plan) => plan.retryPolicy.maxAttempts
  }

  // Inputs a step can still absorb: a result per attempt, a timer firing per
  // retry, and a result per attempt of its compensation.
  function StepBudget(step: StepPlan): nat {
    2 * step.retryPolicy.maxAttempts - 1 + CompensationAttempts(step)
  }

  function PathBudget(d: LinearSagaDefinition, i: nat): nat
    requires i <= |d.steps|
    decreases |d.steps| - i
  {
    if i == |d.steps| then 0 else StepBudget(d.steps[i]) + PathBudget(d, i + 1)
  }

  ghost function StackBudget(d: LinearSagaDefinition, stack: seq<nat>): nat
    requires forall i :: 0 <= i < |stack| ==> stack[i] < |d.steps|
  {
    if stack == [] then 0
    else StackBudget(d, stack[..|stack| - 1]) + CompensationAttempts(d.steps[stack[|stack| - 1]])
  }

  // Without manual resolutions the counted attempt is within the policy of the
  // action being attempted.
  ghost predicate WithinPolicy(d: LinearSagaDefinition, p: LinearSagaProjection) {
    && p.nextStepIndex <= |d.steps|
    && CompensationStack(d, p.compensableStepIndices, p.nextStepIndex)
    && (p.status == Running ==>
          p.nextStepIndex < |d.steps| && p.currentAttempt < d.steps[p.nextStepIndex].retryPolicy.maxAttempts)
    && (p.status == Compensating ==>
          && p.compensableStepIndices != []
          && p.currentAttempt < CompensationAttempts(d.steps[p.compensableStepIndices[|p.compensableStepIndices| - 1]]))
  }

  // How many more inputs the projection can accept at most.
  ghost function Remaining(d: LinearSagaDefinition, p: LinearSagaProjection): (n: int)
    requires WithinPolicy(d, p)
    ensures n >= 0
    ensures Working(p) ==> n >= 1
  {
    match p.status
    case Running =>
      var step := d.steps[p.nextStepIndex];
      2 * (step.retryPolicy.maxAttempts - p.currentAttempt) - 1 + (if p.retryDueAt.Some? then 1 else 0)
      + CompensationAttempts(step) + PathBudget(d, p.nextStepIndex + 1) + StackBudget(d, p.compensableStepIndices)
    case Compensating => StackBudget(d, p.compensableStepIndices) - p.currentAttempt
    case _ => 0
  }

  lemma StackBudgetGrows(d: LinearSagaDefinition, stack: seq<nat>, top: nat)
    requires forall i :: 0 <= i < |stack| ==> stack[i] < |d.steps|
    requires top < |d.steps|
    ensures StackBudget(d, stack + [top]) == StackBudget(d, stack) + CompensationAttempts(d.steps[top])
  {
    assert (stack + [top])[..|stack|] == stack;
  }

  // A finished step frees its own budget and owes at most its compensation.
  lemma SuccessSpends(d: LinearSagaDefinition, p: LinearSagaProjection, q: LinearSagaProjection, move: Move)
    requires Took(d, p, q, move) && (move.Advance? || move.Finish?)
    requires WithinPolicy(d, p) && CompensationStack(d, q.compensableStepIndices, q.nextStepIndex)
    ensures WithinPolicy(d, q) && Remaining(d, q) < Remaining(d, p)
  {
    if d.steps[p.nextStepIndex].compensation.Some? {
      StackBudgetGrows(d, p.compensableStepIndices, p.nextStepIndex);
    }
  }

  lemma UndoSpends(d: LinearSagaDefinition, p: LinearSagaProjection, q: LinearSagaProjection, move: Move)
    requires Took(d, p, q, move) && (move.BeginUndo? || move.UndoNext? || move.UndoLast? || move.RetryUndo?)
    requires WithinPolicy(d, p) && CompensationStack(d, q.compensableStepIndices, q.nextStepIndex)
    ensures WithinPolicy(d, q) && Remaining(d, q) < Remaining(d, p)
  {
  }

  lemma RetrySpends(d: LinearSagaDefinition, p: LinearSagaProjection, q: LinearSagaProjection, move: Move)
    requires Took(d, p, q, move) && (move.RetryNow? || move.RetryLater? || move.TimerFires? || move.GiveUp?)
    requires WithinPolicy(d, p) && CompensationStack(d, q.compensableStepIndices, q.nextStepIndex)
    ensures WithinPolicy(d, q) && Remaining(d, q) < Remaining(d, p)
  {
  }

  lemma MoveSpends(d: LinearSagaDefinition, p: LinearSagaProjection, q: LinearSagaProjection, move: Move)
    requires Took(d, p, q, move) && !ByHand(move)
    requires WithinPolicy(d, p) && CompensationStack(d, q.compensableStepIndices, q.nextStepIndex)
    ensures WithinPolicy(d, q) && Remaining(d, q) < Remaining(d, p)
  {
    if move.Advance? || move.Finish? {
      SuccessSpends(d, p, q, move);
    } else if move.BeginUndo? || move.UndoNext? || move.UndoLast? || move.RetryUndo? {
      UndoSpends(d, p, q, move);
    } else {
      RetrySpends(d, p, q, move);
    }
  }

  // Inputs accepted so far and inputs still acceptable never exceed the budget
  // fixed by the definition.
  lemma {:induction false} RunsSpendTheirBudget(s: Instance, inputs: seq<LinearSagaInput>, decision: SagaDecision)
    requires Live(s, inputs) == Ok(Some(decision)) && ManualFree(inputs)
    ensures WithinPolicy(s.definition, decision.projection)
    ensures |inputs| + Remaining(s.definition, decision.projection) <= 1 + PathBudget(s.definition, 0)
  {
    RunsStayConsistent(s, inputs, decision);
    var prior := LastStep(s, inputs, decision);
    if prior.Some? {
      var before := inputs[..|inputs| - 1];
      RunsStayConsistent(s, before, prior.value);
      RunsSpendTheirBudget(s, before, prior.value);
      var move := EveryInputIsAMove(s, prior.value, inputs[|inputs| - 1], decision);
      MoveSpends(s.definition, prior.value.projection, decision.projection, move);
    }
  }

  lemma {:induction false} PathBudgetIsBounded(d: LinearSagaDefinition, i: nat)
    requires ValidDefinition(d) && i <= |d.steps|
    ensures PathBudget(d, i) <= (|d.steps| - i) * 191
    decreases |d.steps| - i
  {
    if i < |d.steps| {
      assert WithinAttemptLimit(d.steps[i]);
      PathBudgetIsBounded(d, i + 1);
    }
  }

  // Any accepted log without manual resolutions holds at most one start plus
  // the budget of its definition, and never more than 24449 events.
  lemma AcceptedLogsAreBounded(s: Instance, events: seq<LinearSagaEvent>, decision: SagaDecision)
    requires ReplayResult(s, events) == Ok(decision)
    requires forall i :: 0 <= i < |events| ==> !events[i].ManualResolutionApplied?
    ensures |events| <= 1 + PathBudget(s.definition, 0)
    ensures PathBudget(s.definition, 0) <= 24448
  {
    AcceptedLogsAreRuns(s, events);
    var inputs := FromEvents(events);
    assert Live(s, inputs) == Ok(Some(decision));
    RunsStayConsistent(s, inputs, decision);
    RunsSpendTheirBudget(s, inputs, decision);
    PathBudgetIsBounded(s.definition, 0);
  }

  // --------------------------------------------------- what manual input changes

  // Keeping a case escalated is accepted again and again.
  lemma {:induction false} StaysEscalated(s: Instance, start: ActionId, id: InputId, n: nat)
    returns (inputs: seq<LinearSagaInput>, decision: SagaDecision)
    requires ValidDefinition(s.definition)
    ensures Live(s, inputs) == Ok(Some(decision)) && |inputs| == n + 2
    ensures decision.projection.status == Escalated
  {
    if n == 0 {
      var first := [Start(id, start)];
      var unknown := ActionResultInput(id, ActionResultObservation(start, Unknown), None);
      inputs := first + [unknown];
      StartIsSound(s, start);
      assert first[..0] == [] && inputs[..1] == first;
      var started := StartSaga(s, start).value;
      assert Live(s, first) == Ok(Some(started));
      decision := Decide(s, Some(started.projection), unknown).value;
    } else {
      var before, prior := StaysEscalated(s, start, id, n - 1);
      inputs := before + [ManualResolution(id, Escalate, None)];
      assert inputs[..|before|] == before;
      RunsStayConsistent(s, before, prior);
      decision := prior;
    }
  }

  // So with manual resolutions the definition fixes no bound: any two or more input
  // identities that differ are those of some accepted log.
  lemma ManualRunsAreUnbounded(s: Instance, start: ActionId, ids: seq<InputId>)
    returns (inputs: seq<LinearSagaInput>, decision: SagaDecision)
    requires ValidDefinition(s.definition) && |ids| >= 2 && Distinct(ids)
    ensures Recorded(s, inputs, decision) && decision.projection.status == Escalated
    ensures |inputs| == |ids| && forall i :: 0 <= i < |ids| ==> inputs[i].inputId == ids[i]
  {
    var run;
    run, decision := StaysEscalated(s, start, ids[0], |ids| - 2);
    RecordedAs(s, run, decision, ids);
    inputs := WithIds(run, ids);
  }

  // A manual retry resumes the forward step with the attempt counted by
  // whatever escalated: it is within the step's limit exactly when that count
  // already was, and a count left by a compensation need not be.
  lemma ManualRetryKeepsTheCount(s: Instance, inputs: seq<LinearSagaInput>, decision: SagaDecision, id: InputId, resume: ActionId)
    requires Live(s, inputs) == Ok(Some(decision)) && decision.projection.status == Escalated
    requires resume !in decision.projection.issuedActionIds
    ensures decision.projection.nextStepIndex < |s.definition.steps|
    ensures var r := Decide(s, Some(decision.projection), ManualResolution(id, RetryAction, Some(resume)));
            && r.Ok? && r.value.projection.status == Running
            && r.value.projection.nextStepIndex == decision.projection.nextStepIndex
            && r.value.nextAction.Some? && r.value.nextAction.value.attempt == decision.projection.currentAttempt
            && (WithinPolicy(s.definition, r.value.projection) <==>
                  decision.projection.currentAttempt
                    < s.definition.steps[decision.projection.nextStepIndex].retryPolicy.maxAttempts)
  {
    RunsStayConsistent(s, inputs, decision);
    var input := ManualResolution(id, RetryAction, Some(resume));
    DecideIsSound(s, decision, input);
  }

  lemma Extended(s: Instance, inputs: seq<LinearSagaInput>, decision: SagaDecision, input: LinearSagaInput) returns (next: SagaDecision)
    requires Live(s, inputs) == Ok(Some(decision))
    requires Decide(s, Some(decision.projection), input).Ok?
    ensures Decide(s, Some(decision.projection), input) == Ok(next)
    ensures Live(s, inputs + [input]) == Ok(Some(next))
  {
    assert (inputs + [input])[..|inputs|] == inputs;
    next := Decide(s, Some(decision.projection), input).value;
  }
}
