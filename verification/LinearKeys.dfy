// Whether one run can plan two actions under the same semantic effect key.
module LinearKeys {
  import opened Wrappers
  import opened Domain
  import opened SagaDefinition
  import opened Identifiers
  import opened LinearEngine
  import opened LinearInvariants
  import opened LinearMoves
  import opened LinearCompensation
  import opened LinearTermination
  import opened LinearReplay
  import opened LinearProgress
  import opened LinearManualRetry
  import opened LinearTiming

  // ------------------------------------------------------------------- the causes

  // A first retry observed at time zero would be due at a representable time.
  predicate Schedulable(policy: RetryPolicy, seed: RetryJitterSeed) {
    policy.backoff.Some? && RetryDueAt(policy, 0, 0, seed).Ok?
  }

  // The step may wait for a retry timer.
  ghost predicate MayRetryLater(step: StepPlan) {
    step.retryPolicy.maxAttempts > 1 && exists seed :: Schedulable(step.retryPolicy, seed)
  }

  // Every delayed policy with a second attempt may, unless its base delay and its
  // jitter can overflow together.
  lemma FittingPoliciesRetryLater(step: StepPlan, seed: RetryJitterSeed)
    requires step.retryPolicy.maxAttempts > 1 && step.retryPolicy.backoff.Some?
    requires var backoff := step.retryPolicy.backoff.value;
      backoff.jitter.Some? ==> CappedDelay(backoff, 0) + backoff.jitter.value.maxJitterMillis - 1 <= U64_MAX
    ensures MayRetryLater(step)
  {
    assert Schedulable(step.retryPolicy, seed);
  }

  // The step's own effect is a timer action, and so is its retry timer.
  ghost predicate RetriedByItself(step: StepPlan) {
    step.actionKind == Timer && MayRetryLater(step)
  }

  predicate UndoneByItself(step: StepPlan) {
    && step.compensation.Some?
    && step.compensation.value.actionKind == step.actionKind
    && step.compensation.value.payloadDigest == step.payloadDigest
  }

  // The step's retry timer and its compensation's second attempt look alike.
  ghost predicate UndoneByTimer(d: LinearSagaDefinition, i: nat) {
    && i < |d.steps| && MayRetryLater(d.steps[i]) && CountedBy(d, i, 1)
    && d.steps[i].compensation.value.actionKind == Timer
    && d.steps[i].compensation.value.payloadDigest == d.steps[i].payloadDigest
  }

  // Step `i` gives two of its actions one key. The last step's compensation is
  // never reached.
  ghost predicate RepeatsAt(d: LinearSagaDefinition, i: nat) {
    && i < |d.steps|
    && (RetriedByItself(d.steps[i]) || (i + 1 < |d.steps| && (UndoneByItself(d.steps[i]) || UndoneByTimer(d, i))))
  }

  // Two different points of the run plan actions with equal effect keys.
  ghost predicate RepeatsKey(s: Instance, inputs: seq<LinearSagaInput>, m: nat, a: SagaDecision, b: SagaDecision) {
    && m < |inputs| && Live(s, inputs[..m]) == Ok(Some(a)) && Live(s, inputs) == Ok(Some(b))
    && a.nextAction.Some? && b.nextAction.Some?
    && EffectKeyOf(a.nextAction.value) == EffectKeyOf(b.nextAction.value)
  }

  lemma {:induction false} BudgetKeepsFalling(s: Instance, inputs: seq<LinearSagaInput>, m: nat, a: SagaDecision, b: SagaDecision)
    requires ManualFree(inputs) && m < |inputs|
    requires Live(s, inputs[..m]) == Ok(Some(a)) && Live(s, inputs) == Ok(Some(b))
    ensures WithinPolicy(s.definition, a.projection) && WithinPolicy(s.definition, b.projection)
    ensures Remaining(s.definition, b.projection) < Remaining(s.definition, a.projection)
  {
    var before := inputs[..|inputs| - 1];
    RunsSpendTheirBudget(s, inputs[..m], a);
    RunsSpendTheirBudget(s, inputs, b);
    var prior := LastStep(s, inputs, b);
    if m < |before| {
      assert before[..m] == inputs[..m];
      BudgetKeepsFalling(s, before, m, a, prior.value);
    } else {
      assert before == inputs[..m];
      RunsSpendTheirBudget(s, before, prior.value);
    }
    RunsStayConsistent(s, before, prior.value);
    RunsStayConsistent(s, inputs, b);
    var move := EveryInputIsAMove(s, prior.value, inputs[|inputs| - 1], b);
    MoveSpends(s.definition, prior.value.projection, b.projection, move);
  }

  lemma {:induction false} CompensableBelowIsSorted(d: LinearSagaDefinition, n: nat)
    requires n <= |d.steps|
    ensures CompensationStack(d, CompensableBelow(d, n), n)
  {
    if n > 0 {
      CompensableBelowIsSorted(d, n - 1);
    }
  }

  // A prefix of the compensable steps is fixed by its last entry.
  lemma {:induction false} PrefixIsFixedByTop(d: LinearSagaDefinition, n: nat, stack: seq<nat>)
    requires n <= |d.steps| && stack != [] && stack <= CompensableBelow(d, n)
    ensures Top(stack) < n && stack == CompensableBelow(d, Top(stack) + 1)
  {
    CompensableBelowIsSorted(d, n);
    if stack != CompensableBelow(d, n) {
      PrefixIsFixedByTop(d, n - 1, stack);
    } else if d.steps[n - 1].compensation.None? {
      PrefixIsFixedByTop(d, n - 1, stack);
    }
  }

  // In a manual-free run the phase, step, attempt and timer bit fix the budget.
  lemma StackIsFixed(s: Instance, inputs: seq<LinearSagaInput>, a: SagaDecision)
    requires Live(s, inputs) == Ok(Some(a)) && ManualFree(inputs) && Working(a.projection)
    ensures a.projection.nextStepIndex < |s.definition.steps|
    ensures a.projection.status == Running ==>
              a.projection.compensableStepIndices == CompensableBelow(s.definition, a.projection.nextStepIndex)
    ensures a.projection.status == Compensating ==>
              && a.projection.compensableStepIndices != []
              && Top(a.projection.compensableStepIndices) < a.projection.nextStepIndex
              && a.projection.compensableStepIndices
                 == CompensableBelow(s.definition, Top(a.projection.compensableStepIndices) + 1)
  {
    RunsStayConsistent(s, inputs, a);
    UndoneInReverse(s, inputs, a);
    StackIsPushesLessPops(s, inputs, a);
    var ledger := LedgerOf(OpsOf(s, inputs));
    if a.projection.status == Running {
      assert ledger.stack + [] == ledger.stack;
    } else {
      assert ledger.stack <= CompensableBelow(s.definition, a.projection.nextStepIndex);
      PrefixIsFixedByTop(s.definition, a.projection.nextStepIndex, ledger.stack);
    }
  }

  // The step index an action belongs to.
  function StepOf(p: LinearSagaProjection): nat
    requires p.status == Compensating ==> p.compensableStepIndices != []
  {
    if p.status == Compensating then Top(p.compensableStepIndices) else p.nextStepIndex
  }

  // ----------------------------------------------------------- where waiting comes from

  // A delayed policy's count above zero came from a schedule, so one was possible.
  ghost predicate WaitExplained(d: LinearSagaDefinition, p: LinearSagaProjection) {
    (&& p.status == Running && p.currentAttempt >= 1 && p.nextStepIndex < |d.steps|
     && d.steps[p.nextStepIndex].retryPolicy.backoff.Some?)
    ==> MayRetryLater(d.steps[p.nextStepIndex])
  }

  lemma FirstScheduleExplains(s: Instance, q: LinearSagaProjection, request: RetryTimerScheduleRequest)
    requires DueAsRequested(s, q, request) && q.currentAttempt == 1
    requires s.definition.steps[q.nextStepIndex].retryPolicy.maxAttempts > 1
    ensures WaitExplained(s.definition, q)
  {
    assert Schedulable(s.definition.steps[q.nextStepIndex].retryPolicy, request.jitterSeed);
  }

  lemma {:induction false} WaitsAreExplained(s: Instance, inputs: seq<LinearSagaInput>, decision: SagaDecision)
    requires Live(s, inputs) == Ok(Some(decision)) && ManualFree(inputs)
    ensures WaitExplained(s.definition, decision.projection)
  {
    var prior := LastStep(s, inputs, decision);
    if prior.Some? {
      var before := inputs[..|inputs| - 1];
      WaitsAreExplained(s, before, prior.value);
      RunsStayConsistent(s, before, prior.value);
      var move := EveryInputIsAMove(s, prior.value, inputs[|inputs| - 1], decision);
      if move.RetryLater? && decision.projection.currentAttempt == 1 {
        PendingTimerWasJustScheduled(s, inputs, decision);
        FirstScheduleExplains(s, decision.projection, inputs[|inputs| - 1].request);
      }
    }
  }

  // What the key argument needs of each of the two decisions.
  ghost predicate Traced(s: Instance, decision: SagaDecision) {
    && Consistent(s, decision) && decision.nextAction.Some?
    && CountExplained(s.definition, decision.projection) && WaitExplained(s.definition, decision.projection)
    && (decision.projection.retryDueAt.Some? ==> decision.projection.currentAttempt >= 1)
  }

  lemma RunsAreTraced(s: Instance, inputs: seq<LinearSagaInput>, decision: SagaDecision)
    requires Live(s, inputs) == Ok(Some(decision)) && ManualFree(inputs) && decision.nextAction.Some?
    ensures Traced(s, decision)
  {
    RunsStayConsistent(s, inputs, decision);
    CountsAreExplained(s, inputs, decision);
    WaitsAreExplained(s, inputs, decision);
    if decision.projection.retryDueAt.Some? {
      PendingTimerWasJustScheduled(s, inputs, decision);
    }
  }

  // ---------------------------------------------------------------- keys and places

  // One step, phase, attempt and timer bit.
  ghost predicate OnePlace(p: LinearSagaProjection, q: LinearSagaProjection) {
    && (p.status == Compensating ==> p.compensableStepIndices != [])
    && (q.status == Compensating ==> q.compensableStepIndices != [])
    && StepOf(p) == StepOf(q) && p.status == q.status && p.currentAttempt == q.currentAttempt
    && (p.retryDueAt.Some? <==> q.retryDueAt.Some?)
  }

  // What a working decision's action is.
  lemma ActionOfPlace(s: Instance, a: SagaDecision) returns (i: nat)
    requires Consistent(s, a) && a.nextAction.Some?
    ensures a.projection.status == Compensating ==> a.projection.compensableStepIndices != []
    ensures i == StepOf(a.projection) < |s.definition.steps| && Working(a.projection)
    ensures var key, step := EffectKeyOf(a.nextAction.value), s.definition.steps[i];
      && key.stepId == step.stepId && key.attempt == a.projection.currentAttempt
      && (if a.projection.status == Compensating
          then i + 1 < |s.definition.steps| && step.compensation.Some? && a.projection.retryDueAt.None?
               && key.kind == step.compensation.value.actionKind && key.payloadDigest == step.compensation.value.payloadDigest
          else key.payloadDigest == step.payloadDigest
               && key.kind == if a.projection.retryDueAt.Some? then Timer else step.actionKind)
  {
    i := StepOf(a.projection);
  }

  // Both run forward, and only one waits.
  lemma WaitingRepeats(s: Instance, a: SagaDecision, b: SagaDecision)
    requires Traced(s, a) && Traced(s, b) && EffectKeyOf(a.nextAction.value) == EffectKeyOf(b.nextAction.value)
    requires a.projection.status == Running && b.projection.status == Running
    requires a.projection.retryDueAt.Some? && b.projection.retryDueAt.None?
    ensures RepeatsAt(s.definition, a.projection.nextStepIndex)
  {
    var i := ActionOfPlace(s, a);
    var j := ActionOfPlace(s, b);
    assert i == j;
  }

  // One runs forward and the other undoes.
  lemma UndoingRepeats(s: Instance, a: SagaDecision, b: SagaDecision)
    requires Traced(s, a) && Traced(s, b) && EffectKeyOf(a.nextAction.value) == EffectKeyOf(b.nextAction.value)
    requires a.projection.status == Running && b.projection.status == Compensating
    ensures RepeatsAt(s.definition, a.projection.nextStepIndex)
  {
    var i := ActionOfPlace(s, a);
    var j := ActionOfPlace(s, b);
    assert i == j;
  }

  // Equal keys name one place, unless some step repeats.
  lemma KeyFixesPlace(s: Instance, a: SagaDecision, b: SagaDecision)
    requires Traced(s, a) && Traced(s, b) && EffectKeyOf(a.nextAction.value) == EffectKeyOf(b.nextAction.value)
    requires forall i: nat :: !RepeatsAt(s.definition, i)
    ensures OnePlace(a.projection, b.projection)
  {
    var i := ActionOfPlace(s, a);
    var j := ActionOfPlace(s, b);
    assert i == j;
    if a.projection.status != b.projection.status {
      if a.projection.status == Running {
        UndoingRepeats(s, a, b);
      } else {
        UndoingRepeats(s, b, a);
      }
    } else if a.projection.retryDueAt.Some? != b.projection.retryDueAt.Some? {
      if a.projection.retryDueAt.Some? {
        WaitingRepeats(s, a, b);
      } else {
        WaitingRepeats(s, b, a);
      }
    }
  }

  // Same phase, step, attempt, timer bit and undo stack: same budget.
  lemma PlaceFixesBudget(d: LinearSagaDefinition, p: LinearSagaProjection, q: LinearSagaProjection)
    requires WithinPolicy(d, p) && WithinPolicy(d, q)
    requires p.status == q.status && p.currentAttempt == q.currentAttempt
    requires p.status == Running ==> p.nextStepIndex == q.nextStepIndex
    requires p.retryDueAt.Some? <==> q.retryDueAt.Some?
    requires p.compensableStepIndices == q.compensableStepIndices
    ensures Remaining(d, p) == Remaining(d, q)
  {
  }

  lemma KeyFixesBudget(s: Instance, inputs: seq<LinearSagaInput>, m: nat, a: SagaDecision, b: SagaDecision)
    requires ManualFree(inputs) && RepeatsKey(s, inputs, m, a, b)
    requires forall i: nat :: !RepeatsAt(s.definition, i)
    requires WithinPolicy(s.definition, a.projection) && WithinPolicy(s.definition, b.projection)
    ensures Remaining(s.definition, a.projection) == Remaining(s.definition, b.projection)
  {
    RunsAreTraced(s, inputs[..m], a);
    RunsAreTraced(s, inputs, b);
    KeyFixesPlace(s, a, b);
    StackIsFixed(s, inputs[..m], a);
    StackIsFixed(s, inputs, b);
    PlaceFixesBudget(s.definition, a.projection, b.projection);
  }

  lemma KeysNeverRepeat(s: Instance, inputs: seq<LinearSagaInput>, m: nat, a: SagaDecision, b: SagaDecision)
    requires ManualFree(inputs) && forall i: nat :: !RepeatsAt(s.definition, i)
    ensures !RepeatsKey(s, inputs, m, a, b)
  {
    if RepeatsKey(s, inputs, m, a, b) {
      BudgetKeepsFalling(s, inputs, m, a, b);
      KeyFixesBudget(s, inputs, m, a, b);
    }
  }

  // ------------------------------------------------------------------ reaching repeats

  // The forward action of step `i` and its compensation share one key.
  lemma RepeatByUndo(s: Instance, i: nat) returns (inputs: seq<LinearSagaInput>, a: SagaDecision, b: SagaDecision)
    requires ValidDefinition(s.definition) && i + 1 < |s.definition.steps| && UndoneByItself(s.definition.steps[i])
    ensures ManualFree(inputs) && RepeatsKey(s, inputs, i + 1, a, b)
  {
    var id := NthInput(0);
    a := ReachStep(s, id, i);
    b := ReachCompensationOf(s, id, i);
    inputs := FailRun(id, i + 1);
    assert SuccessRun(id, i + 1)[..i + 1] == SuccessRun(id, i);
    assert inputs[..i + 1] == SuccessRun(id, i);
    RunsStayConsistent(s, SuccessRun(id, i), a);
    RunsStayConsistent(s, inputs, b);
  }

  // The run goes on without manual resolutions.
  ghost predicate GoesOn(inputs: seq<LinearSagaInput>, more: seq<LinearSagaInput>) {
    inputs <= more && |inputs| < |more| && (ManualFree(inputs) ==> ManualFree(more))
  }

  lemma OneMore(s: Instance, inputs: seq<LinearSagaInput>, decision: SagaDecision, input: LinearSagaInput)
    returns (more: seq<LinearSagaInput>, next: SagaDecision)
    requires Live(s, inputs) == Ok(Some(decision)) && !input.ManualResolution?
    requires Decide(s, Some(decision.projection), input).Ok?
    ensures GoesOn(inputs, more) && |more| == |inputs| + 1 && Live(s, more) == Ok(Some(next))
    ensures Decide(s, Some(decision.projection), input) == Ok(next)
  {
    more := inputs + [input];
    next := Extended(s, inputs, decision, input);
  }

  lemma GoesFurther(a: seq<LinearSagaInput>, b: seq<LinearSagaInput>, c: seq<LinearSagaInput>)
    requires GoesOn(a, b) && GoesOn(b, c)
    ensures GoesOn(a, c)
  {
  }

  // Step `i` waits for its first retry as the m-th action.
  ghost predicate Waiting(s: Instance, inputs: seq<LinearSagaInput>, decision: SagaDecision, i: nat, m: nat) {
    && |inputs| == m + 1 && m < ID_LIMIT && i < |s.definition.steps|
    && Live(s, inputs) == Ok(Some(decision)) && decision.projection.status == Running
    && decision.projection.nextStepIndex == i && decision.projection.currentAttempt == 1 && decision.projection.retryDueAt.Some?
    && decision.projection.compensableStepIndices == CompensableBelow(s.definition, i)
    && decision.projection.activeActionId == Some(NthId(m)) && decision.projection.issuedActionIds == NthIds(m + 1)
  }

  lemma StepWaits(s: Instance, id: InputId, inputs: seq<LinearSagaInput>, decision: SagaDecision, i: nat, m: nat)
    returns (more: seq<LinearSagaInput>, next: SagaDecision, last: nat)
    requires AtStep(s, inputs, decision, i, 0, m) && MayRetryLater(s.definition.steps[i]) && m + 1 < ID_LIMIT
    ensures GoesOn(inputs, more) && Waiting(s, more, next, i, last) && last == m + 1
  {
    last := m + 1;
    var policy := s.definition.steps[i].retryPolicy;
    var seed :| Schedulable(policy, seed);
    var due := RetryDueAt(policy, 0, 0, seed).value.value;
    RunsStayConsistent(s, inputs, decision);
    FreshNthId(decision.projection.issuedActionIds, last);
    var request := WaitRequest(seed, m, None);
    ScheduleDecision(s, decision, request, due, NthId(last));
    more, next := OneMore(s, inputs, decision, RetryTimerScheduledInput(id, request));
  }

  lemma StepRetries(s: Instance, id: InputId, inputs: seq<LinearSagaInput>, decision: SagaDecision, i: nat, m: nat)
    returns (more: seq<LinearSagaInput>, next: SagaDecision, last: nat)
    requires Waiting(s, inputs, decision, i, m) && m + 1 < ID_LIMIT
    ensures GoesOn(inputs, more) && AtStep(s, more, next, i, 1, last) && last == m + 1
  {
    last := m + 1;
    RunsStayConsistent(s, inputs, decision);
    FreshNthId(decision.projection.issuedActionIds, last);
    FiringDecision(s, decision, NthId(m), U64_MAX, NthId(last));
    more, next := OneMore(s, inputs, decision, RetryTimerFiredInput(id, NthId(m), U64_MAX, NthId(last)));
  }

  lemma StepSucceeds(s: Instance, id: InputId, inputs: seq<LinearSagaInput>, decision: SagaDecision, i: nat, c: nat, m: nat)
    returns (more: seq<LinearSagaInput>, next: SagaDecision, last: nat)
    requires AtStep(s, inputs, decision, i, c, m) && i + 1 < |s.definition.steps| && m + 1 < ID_LIMIT
    ensures GoesOn(inputs, more) && AtStep(s, more, next, i + 1, 0, last) && last == m + 1
  {
    last := m + 1;
    RunsStayConsistent(s, inputs, decision);
    FreshNthId(decision.projection.issuedActionIds, last);
    SuccessAdvances(s, decision, id, m);
    more, next := OneMore(s, inputs, decision, NthResult(id, m, Succeeded));
  }

  lemma StepFails(s: Instance, id: InputId, inputs: seq<LinearSagaInput>, decision: SagaDecision, i: nat, stack: seq<nat>, m: nat)
    returns (more: seq<LinearSagaInput>, next: SagaDecision, last: nat)
    requires AtStep(s, inputs, decision, i, 0, m) && stack == CompensableBelow(s.definition, i) && stack != [] && m + 1 < ID_LIMIT
    ensures GoesOn(inputs, more) && Undoing(s, more, next, i, stack, 0, last) && last == m + 1
  {
    last := m + 1;
    RunsStayConsistent(s, inputs, decision);
    FreshNthId(decision.projection.issuedActionIds, last);
    TerminalFailureBeginsUndo(s, decision, id, m);
    more, next := OneMore(s, inputs, decision, NthResult(id, m, TerminalFailure));
  }

  lemma UndoFails(s: Instance, id: InputId, inputs: seq<LinearSagaInput>, decision: SagaDecision, n: nat, stack: seq<nat>, m: nat)
    returns (more: seq<LinearSagaInput>, next: SagaDecision, last: nat)
    requires Undoing(s, inputs, decision, n, stack, 0, m) && stack != [] && CountedBy(s.definition, Top(stack), 1) && m + 1 < ID_LIMIT
    ensures GoesOn(inputs, more) && Undoing(s, more, next, n, stack, 1, last) && last == m + 1
  {
    last := m + 1;
    RunsStayConsistent(s, inputs, decision);
    FreshNthId(decision.projection.issuedActionIds, last);
    UndoRetryDecision(s, decision, id, 0, m);
    more, next := OneMore(s, inputs, decision, NthResult(id, m, RetryableFailure));
  }

  // The first `i` steps succeed, and step `i` waits for a retry.
  lemma ReachWait(s: Instance, id: InputId, i: nat) returns (inputs: seq<LinearSagaInput>, decision: SagaDecision, last: nat)
    requires ValidDefinition(s.definition) && i < |s.definition.steps| && MayRetryLater(s.definition.steps[i])
    ensures ManualFree(inputs) && Waiting(s, inputs, decision, i, last) && last == i + 1
  {
    var running := ReachStep(s, id, i);
    inputs, decision, last := StepWaits(s, id, SuccessRun(id, i), running, i, i);
  }

  // Whatever comes later, the waiting decision is still a prefix of the run.
  lemma PrefixRepeats(s: Instance, before: seq<LinearSagaInput>, inputs: seq<LinearSagaInput>, a: SagaDecision, b: SagaDecision)
    requires GoesOn(before, inputs) && ManualFree(before) && Live(s, before) == Ok(Some(a)) && Live(s, inputs) == Ok(Some(b))
    requires a.nextAction.Some? && b.nextAction.Some? && EffectKeyOf(a.nextAction.value) == EffectKeyOf(b.nextAction.value)
    ensures ManualFree(inputs) && RepeatsKey(s, inputs, |before|, a, b)
  {
    assert inputs[..|before|] == before;
  }

  // A waiting timer and the retry it leads to, both of kind timer.
  lemma RetryKey(s: Instance, a: SagaDecision, b: SagaDecision, i: nat)
    requires Consistent(s, a) && Consistent(s, b) && i < |s.definition.steps| && s.definition.steps[i].actionKind == Timer
    requires a.projection.status == Running && a.projection.retryDueAt.Some? && Idle(b.projection, Running)
    requires a.projection.nextStepIndex == b.projection.nextStepIndex == i
    requires a.projection.currentAttempt == b.projection.currentAttempt
    ensures a.nextAction.Some? && b.nextAction.Some? && EffectKeyOf(a.nextAction.value) == EffectKeyOf(b.nextAction.value)
  {
  }

  lemma RepeatByRetry(s: Instance, i: nat) returns (inputs: seq<LinearSagaInput>, m: nat, a: SagaDecision, b: SagaDecision)
    requires ValidDefinition(s.definition) && i < |s.definition.steps| && RetriedByItself(s.definition.steps[i])
    ensures ManualFree(inputs) && RepeatsKey(s, inputs, m, a, b)
  {
    var id := NthInput(0);
    var before, last, end;
    before, a, last := ReachWait(s, id, i);
    inputs, b, end := StepRetries(s, id, before, a, i, last);
    RunsStayConsistent(s, before, a);
    RunsStayConsistent(s, inputs, b);
    RetryKey(s, a, b, i);
    PrefixRepeats(s, before, inputs, a, b);
    m := |before|;
  }

  // The step succeeds after its retry, and the next one fails for good.
  lemma UndoIsNext(s: Instance, id: InputId, inputs: seq<LinearSagaInput>, retried: SagaDecision, i: nat, stack: seq<nat>, m: nat)
    returns (more: seq<LinearSagaInput>, decision: SagaDecision, last: nat)
    requires AtStep(s, inputs, retried, i, 1, m) && i + 1 < |s.definition.steps| && m + 2 < ID_LIMIT
    requires stack == CompensableBelow(s.definition, i + 1) && stack != []
    ensures GoesOn(inputs, more) && Undoing(s, more, decision, i + 1, stack, 0, last) && last == m + 2
  {
    var one, next, l := StepSucceeds(s, id, inputs, retried, i, 1, m);
    more, decision, last := StepFails(s, id, one, next, i + 1, stack, l);
    GoesFurther(inputs, one, more);
  }

  // And the compensation is attempted twice.
  lemma UndoAfterRetry(s: Instance, id: InputId, inputs: seq<LinearSagaInput>, retried: SagaDecision, i: nat, stack: seq<nat>, m: nat)
    returns (more: seq<LinearSagaInput>, decision: SagaDecision, last: nat)
    requires AtStep(s, inputs, retried, i, 1, m) && i + 1 < |s.definition.steps| && m + 3 < ID_LIMIT
    requires stack == CompensableBelow(s.definition, i + 1) && stack != [] && CountedBy(s.definition, Top(stack), 1)
    ensures GoesOn(inputs, more) && Undoing(s, more, decision, i + 1, stack, 1, last)
  {
    var two, undoing, k := UndoIsNext(s, id, inputs, retried, i, stack, m);
    more, decision, last := UndoFails(s, id, two, undoing, i + 1, stack, k);
    GoesFurther(inputs, two, more);
  }

  // A waiting timer and the second attempt of the compensation.
  lemma UndoKey(s: Instance, a: SagaDecision, b: SagaDecision, i: nat)
    requires Consistent(s, a) && Consistent(s, b) && UndoneByTimer(s.definition, i)
    requires a.projection.status == Running && a.projection.retryDueAt.Some? && a.projection.nextStepIndex == i
    requires Idle(b.projection, Compensating) && b.projection.compensableStepIndices != [] && Top(b.projection.compensableStepIndices) == i
    requires a.projection.currentAttempt == b.projection.currentAttempt
    ensures a.nextAction.Some? && b.nextAction.Some? && EffectKeyOf(a.nextAction.value) == EffectKeyOf(b.nextAction.value)
  {
  }

  lemma RepeatByTimerUndo(s: Instance, i: nat) returns (inputs: seq<LinearSagaInput>, m: nat, a: SagaDecision, b: SagaDecision)
    requires ValidDefinition(s.definition) && i + 1 < |s.definition.steps| && UndoneByTimer(s.definition, i)
    ensures ManualFree(inputs) && RepeatsKey(s, inputs, m, a, b)
  {
    var id := NthInput(0);
    var before, last;
    before, a, last := ReachWait(s, id, i);
    var middle, retried, next := StepRetries(s, id, before, a, i, last);
    var end;
    var stack := CompensableBelow(s.definition, i + 1);
    assert stack != [] && Top(stack) == i;
    inputs, b, end := UndoAfterRetry(s, id, middle, retried, i, stack, next);
    GoesFurther(before, middle, inputs);
    RunsStayConsistent(s, before, a);
    RunsStayConsistent(s, inputs, b);
    UndoKey(s, a, b, i);
    PrefixRepeats(s, before, inputs, a, b);
    m := |before|;
  }

  // ------------------------------------------------------------ runs and resolutions

  lemma HandsLeave(s: Instance, p: LinearSagaProjection, resolution: ManualReviewResolution, resume: Option<ActionId>, q: SagaDecision)
    requires ApplyManualResolution(s, p, resolution, resume) == Ok(q)
    ensures resolution != RetryAction ==> q.projection.status != Running
    ensures resolution == Cancel || resolution == Escalate ==> !Working(q.projection)
  {
  }

  predicate IsResolution(input: LinearSagaInput, resolutions: set<ManualReviewResolution>) {
    input.ManualResolution? && input.resolution in resolutions
  }

  // No resolution of these kinds is made.
  predicate Without(inputs: seq<LinearSagaInput>, resolutions: set<ManualReviewResolution>) {
    forall i :: 0 <= i < |inputs| ==> !IsResolution(inputs[i], resolutions)
  }

  const PLANNING: set<ManualReviewResolution> := {RetryAction, Compensate}
  const RESUMING: set<ManualReviewResolution> := {RetryAction}

  lemma ManualFreeSnoc(inputs: seq<LinearSagaInput>)
    requires inputs != [] && ManualFree(inputs[..|inputs| - 1]) && !inputs[|inputs| - 1].ManualResolution?
    ensures ManualFree(inputs)
  {
    var n := |inputs| - 1;
    forall i | 0 <= i < |inputs| ensures !inputs[i].ManualResolution? {
      if i < n {
        assert inputs[..n][i] == inputs[i];
      }
    }
  }

  lemma WithoutPrefix(inputs: seq<LinearSagaInput>, n: nat, resolutions: set<ManualReviewResolution>)
    requires n <= |inputs| && Without(inputs, resolutions)
    ensures Without(inputs[..n], resolutions)
  {
    forall i | 0 <= i < n ensures !IsResolution(inputs[..n][i], resolutions) {
      assert !IsResolution(inputs[i], resolutions);
    }
  }

  // The last input of a run that is still working, or still running, was not a
  // resolution; nor had the saga stopped, or begun to undo, before it.
  lemma LastInputGoesOn(s: Instance, prior: SagaDecision, input: LinearSagaInput, decision: SagaDecision)
    requires Consistent(s, prior) && Decide(s, Some(prior.projection), input) == Ok(decision)
    ensures !IsResolution(input, PLANNING) && Working(decision.projection) ==> !input.ManualResolution? && Working(prior.projection)
    ensures !IsResolution(input, RESUMING) && decision.projection.status == Running ==>
      !input.ManualResolution? && prior.projection.status == Running
  {
    var move := EveryInputIsAMove(s, prior, input, decision);
    if input.ManualResolution? {
      HandsLeave(s, prior.projection, input.resolution, input.resumeActionId, decision);
    }
  }

  // Without resolutions that plan an action, a run that plans one has made none.
  lemma {:induction false} WorkingIsManualFree(s: Instance, inputs: seq<LinearSagaInput>, decision: SagaDecision)
    requires Live(s, inputs) == Ok(Some(decision)) && Without(inputs, PLANNING) && Working(decision.projection)
    ensures ManualFree(inputs)
  {
    var prior := LastStep(s, inputs, decision);
    if prior.Some? {
      var n := |inputs| - 1;
      RunsStayConsistent(s, inputs[..n], prior.value);
      assert !IsResolution(inputs[n], PLANNING);
      LastInputGoesOn(s, prior.value, inputs[n], decision);
      WithoutPrefix(inputs, n, PLANNING);
      WorkingIsManualFree(s, inputs[..n], prior.value);
      ManualFreeSnoc(inputs);
    }
  }

  // Without retries by hand, a run that is running has made no resolution.
  lemma {:induction false} RunningIsManualFree(s: Instance, inputs: seq<LinearSagaInput>, decision: SagaDecision)
    requires Live(s, inputs) == Ok(Some(decision)) && Without(inputs, RESUMING) && decision.projection.status == Running
    ensures ManualFree(inputs)
  {
    var prior := LastStep(s, inputs, decision);
    if prior.Some? {
      var n := |inputs| - 1;
      RunsStayConsistent(s, inputs[..n], prior.value);
      assert !IsResolution(inputs[n], RESUMING);
      LastInputGoesOn(s, prior.value, inputs[n], decision);
      WithoutPrefix(inputs, n, RESUMING);
      RunningIsManualFree(s, inputs[..n], prior.value);
      ManualFreeSnoc(inputs);
    }
  }

  // ------------------------------------------------------------------------ theorems

  // An accepted log without these resolutions plans two actions under one key.
  ghost predicate SomeLogRepeatsKey(s: Instance, resolutions: set<ManualReviewResolution>) {
    exists inputs: seq<LinearSagaInput>, m: nat, a: SagaDecision, b: SagaDecision ::
      Without(inputs, resolutions) && DistinctInputIds(inputs) && RepeatsKey(s, inputs, m, a, b)
  }

  lemma NumberedWithout(inputs: seq<LinearSagaInput>, resolutions: set<ManualReviewResolution>)
    requires |inputs| <= ID_LIMIT
    ensures Without(inputs, resolutions) ==> Without(Numbered(inputs), resolutions)
    ensures ManualFree(inputs) ==> Without(Numbered(inputs), resolutions)
  {
    forall i | 0 <= i < |inputs| ensures IsResolution(Numbered(inputs)[i], resolutions) <==> IsResolution(inputs[i], resolutions) {
    }
  }

  // A repeated key of a live run is one of an accepted log.
  lemma RepeatIsRecorded(s: Instance, inputs: seq<LinearSagaInput>, m: nat, a: SagaDecision, b: SagaDecision, resolutions: set<ManualReviewResolution>)
    requires RepeatsKey(s, inputs, m, a, b) && |inputs| <= ID_LIMIT && (Without(inputs, resolutions) || ManualFree(inputs))
    ensures SomeLogRepeatsKey(s, resolutions)
  {
    var run := Numbered(inputs);
    NumberedWithout(inputs, resolutions);
    NumberedIsRecorded(s, inputs, b);
    NumberedPrefix(inputs, m);
    NumberedIsRecorded(s, inputs[..m], a);
    assert RepeatsKey(s, run, m, a, b);
  }

  lemma ManualFreeIsShort(s: Instance, inputs: seq<LinearSagaInput>, decision: SagaDecision)
    requires Live(s, inputs) == Ok(Some(decision)) && ManualFree(inputs)
    ensures |inputs| <= ID_LIMIT
  {
    RunsStayConsistent(s, inputs, decision);
    RunsSpendTheirBudget(s, inputs, decision);
    PathBudgetIsBounded(s.definition, 0);
  }

  lemma CauseRepeats(s: Instance, i: nat, resolutions: set<ManualReviewResolution>)
    requires ValidDefinition(s.definition) && RepeatsAt(s.definition, i)
    ensures SomeLogRepeatsKey(s, resolutions)
  {
    var inputs, m, a, b;
    if RetriedByItself(s.definition.steps[i]) {
      inputs, m, a, b := RepeatByRetry(s, i);
    } else if UndoneByItself(s.definition.steps[i]) {
      inputs, a, b := RepeatByUndo(s, i);
      m := i + 1;
    } else {
      inputs, m, a, b := RepeatByTimerUndo(s, i);
    }
    ManualFreeIsShort(s, inputs, b);
    RepeatIsRecorded(s, inputs, m, a, b, resolutions);
  }

  // Whoever resolves at most by cancelling or keeping a case escalated, an accepted
  // log plans two actions under one effect key exactly when some step is itself a
  // timer action that may wait for a retry or, before the last step, has a
  // compensation like itself or like its retry timer.
  lemma KeysRepeatIff(s: Instance)
    requires ValidDefinition(s.definition)
    ensures SomeLogRepeatsKey(s, PLANNING) <==> exists i: nat :: RepeatsAt(s.definition, i)
  {
    if i: nat :| RepeatsAt(s.definition, i) {
      CauseRepeats(s, i, PLANNING);
    } else {
      forall inputs: seq<LinearSagaInput>, m: nat, a: SagaDecision, b: SagaDecision | Without(inputs, PLANNING)
        ensures !RepeatsKey(s, inputs, m, a, b)
      {
        if RepeatsKey(s, inputs, m, a, b) {
          RunsStayConsistent(s, inputs, b);
          WorkingIsManualFree(s, inputs, b);
          KeysNeverRepeat(s, inputs, m, a, b);
        }
      }
    }
  }
}
