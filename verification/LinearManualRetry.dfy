// Which definitions let a manual retry resume a step beyond its own attempt limit.
module LinearManualRetry {
  import opened Wrappers
  import opened Domain
  import opened SagaDefinition
  import opened Identifiers
  import opened LinearEngine
  import opened LinearInvariants
  import opened LinearMoves
  import opened LinearCompensation
  import opened LinearTermination
  import opened LinearReplay
  import opened LinearProgress

  // ------------------------------------------------------- where a count comes from

  // An attempt count before step `n` is that step's own, or one left by the
  // compensation of an earlier step.
  predicate Explained(d: LinearSagaDefinition, n: nat, c: nat) {
    n < |d.steps| && (c < d.steps[n].retryPolicy.maxAttempts || exists i: nat :: i < n && CountedBy(d, i, c))
  }

  ghost predicate CountExplained(d: LinearSagaDefinition, p: LinearSagaProjection) {
    && (p.status == Running || p.status == Escalated ==> Explained(d, p.nextStepIndex, p.currentAttempt))
    && (p.status == Compensating ==>
          && p.compensableStepIndices != []
          && (p.currentAttempt == 0 || CountedBy(d, Top(p.compensableStepIndices), p.currentAttempt)))
  }

  lemma GiveUpKeepsCount(d: LinearSagaDefinition, p: LinearSagaProjection, q: LinearSagaProjection)
    requires Took(d, p, q, GiveUp) && CountExplained(d, p)
    requires CompensationStack(d, p.compensableStepIndices, p.nextStepIndex)
    ensures CountExplained(d, q)
  {
    if p.status == Compensating && p.currentAttempt > 0 {
      assert Top(p.compensableStepIndices) < p.nextStepIndex;
    }
  }

  lemma MoveKeepsCount(d: LinearSagaDefinition, p: LinearSagaProjection, q: LinearSagaProjection, move: Move)
    requires Took(d, p, q, move) && CountExplained(d, p)
    requires CompensationStack(d, p.compensableStepIndices, p.nextStepIndex)
    ensures CountExplained(d, q)
  {
    if move.GiveUp? {
      GiveUpKeepsCount(d, p, q);
    }
  }

  // In every run, manual resolutions included, a count of a running or escalated
  // saga is explained, and one above zero while compensating belongs to a
  // compensation that retries at once.
  lemma {:induction false} CountsAreExplained(s: Instance, inputs: seq<LinearSagaInput>, decision: SagaDecision)
    requires Live(s, inputs) == Ok(Some(decision))
    ensures CountExplained(s.definition, decision.projection)
  {
    RunsStayConsistent(s, inputs, decision);
    var prior := LastStep(s, inputs, decision);
    if prior.Some? {
      var before := inputs[..|inputs| - 1];
      CountsAreExplained(s, before, prior.value);
      RunsStayConsistent(s, before, prior.value);
      var move := EveryInputIsAMove(s, prior.value, inputs[|inputs| - 1], decision);
      MoveKeepsCount(s.definition, prior.value.projection, decision.projection, move);
    }
  }

  // ------------------------------------------------------------------- reaching it

  lemma UndoSuccessDecision(s: Instance, decision: SagaDecision, id: InputId, m: nat)
    requires Consistent(s, decision) && Idle(decision.projection, Compensating) && |decision.projection.compensableStepIndices| >= 2
    requires m + 1 < ID_LIMIT && decision.projection.activeActionId == Some(NthId(m))
    requires NthId(m + 1) !in decision.projection.issuedActionIds
    ensures var r := Decide(s, Some(decision.projection), NthResult(id, m, Succeeded));
            && r.Ok? && Idle(r.value.projection, Compensating) && r.value.projection.currentAttempt == 0
            && r.value.projection.nextStepIndex == decision.projection.nextStepIndex
            && r.value.projection.compensableStepIndices
               == decision.projection.compensableStepIndices[..|decision.projection.compensableStepIndices| - 1]
            && r.value.projection.activeActionId == Some(NthId(m + 1))
            && r.value.projection.issuedActionIds == decision.projection.issuedActionIds + [NthId(m + 1)]
  {
    CompensationIsSound(s, decision, Succeeded, Some(NthId(m + 1)));
  }

  lemma UndoneNext(s: Instance, inputs: seq<LinearSagaInput>, decision: SagaDecision, id: InputId, n: nat, stack: seq<nat>, rest: seq<nat>, m: nat)
    returns (more: seq<LinearSagaInput>, next: SagaDecision, last: nat)
    requires Undoing(s, inputs, decision, n, stack, 0, m) && |stack| >= 2 && stack[..|stack| - 1] == rest && m + 1 < ID_LIMIT
    ensures Undoing(s, more, next, n, rest, 0, last) && last == m + 1
  {
    RunsStayConsistent(s, inputs, decision);
    FreshNthId(decision.projection.issuedActionIds, m + 1);
    UndoSuccessDecision(s, decision, id, m);
    next := Extended(s, inputs, decision, NthResult(id, m, Succeeded));
    more, last := inputs + [NthResult(id, m, Succeeded)], m + 1;
  }

  // The target is a proper prefix of the stack, so of the stack less its top.
  lemma PrefixDrops(stack: seq<nat>, target: seq<nat>) returns (rest: seq<nat>)
    requires target <= stack && target != stack && target != []
    ensures |stack| >= 2 && rest == stack[..|stack| - 1] && target <= rest
  {
    assert |target| < |stack| by {
      assert target == stack[..|target|];
    }
    rest := stack[..|stack| - 1];
  }

  // Compensations succeed until only the target is left on the stack.
  lemma {:induction false} UndoDownTo(s: Instance, inputs: seq<LinearSagaInput>, decision: SagaDecision, id: InputId, n: nat, stack: seq<nat>, target: seq<nat>, m: nat)
    returns (more: seq<LinearSagaInput>, next: SagaDecision, last: nat)
    requires Undoing(s, inputs, decision, n, stack, 0, m) && target <= stack && target != [] && m + |stack| < ID_LIMIT
    ensures Undoing(s, more, next, n, target, 0, last) && last <= m + |stack|
    decreases |stack|
  {
    if target == stack {
      more, next, last := inputs, decision, m;
    } else {
      var rest := PrefixDrops(stack, target);
      var after, undone, l := UndoneNext(s, inputs, decision, id, n, stack, rest, m);
      more, next, last := UndoDownTo(s, after, undone, id, n, rest, target, l);
    }
  }

  lemma {:induction false} BelowIsPrefix(d: LinearSagaDefinition, i: nat, k: nat)
    requires i <= k <= |d.steps|
    ensures CompensableBelow(d, i) <= CompensableBelow(d, k) && |CompensableBelow(d, k)| <= k
    decreases k
  {
    if i < k {
      BelowIsPrefix(d, i, k - 1);
    } else if k > 0 {
      BelowIsPrefix(d, k - 1, k - 1);
    }
  }

  // The compensation on top fails until its count is `c`.
  lemma {:induction false} CountUndosTo(s: Instance, inputs: seq<LinearSagaInput>, decision: SagaDecision, id: InputId, n: nat, stack: seq<nat>, c: nat, m: nat)
    returns (more: seq<LinearSagaInput>, next: SagaDecision, last: nat)
    requires Undoing(s, inputs, decision, n, stack, 0, m) && stack != [] && CountedBy(s.definition, Top(stack), c) && m + c < ID_LIMIT
    ensures Undoing(s, more, next, n, stack, c, last) && last == m + c
    decreases c
  {
    if c == 0 {
      more, next, last := inputs, decision, m;
    } else {
      var before, prior, l := CountUndosTo(s, inputs, decision, id, n, stack, c - 1, m);
      more, next, last := UndoRetriedTo(s, before, prior, id, n, stack, c, l);
    }
  }

  // The compensation was given up: escalated with its count and stack.
  ghost predicate GivenUp(s: Instance, inputs: seq<LinearSagaInput>, decision: SagaDecision, n: nat, stack: seq<nat>, c: nat, m: nat) {
    && |inputs| == m + 2 && m < ID_LIMIT && Live(s, inputs) == Ok(Some(decision)) && Idle(decision.projection, Escalated)
    && decision.projection.nextStepIndex == n && decision.projection.compensableStepIndices == stack
    && decision.projection.currentAttempt == c && decision.projection.issuedActionIds == NthIds(m + 1)
  }

  function Abandon(id: InputId, m: nat): LinearSagaInput
    requires m < ID_LIMIT
  {
    ActionResultInput(id, ActionResultObservation(NthId(m), TerminalFailure), None)
  }

  lemma GiveUpDecision(s: Instance, decision: SagaDecision, id: InputId, m: nat)
    requires Consistent(s, decision) && Idle(decision.projection, Compensating) && m < ID_LIMIT
    requires decision.projection.activeActionId == Some(NthId(m))
    ensures var r := Decide(s, Some(decision.projection), Abandon(id, m));
            && r.Ok? && Idle(r.value.projection, Escalated) && SamePlace(decision.projection, r.value.projection)
            && r.value.projection.currentAttempt == decision.projection.currentAttempt
            && r.value.projection.issuedActionIds == decision.projection.issuedActionIds
  {
    CompensationIsSound(s, decision, TerminalFailure, None);
  }

  // A compensation that fails for good escalates.
  lemma UndoGivenUp(s: Instance, inputs: seq<LinearSagaInput>, decision: SagaDecision, id: InputId, n: nat, stack: seq<nat>, c: nat, m: nat)
    returns (more: seq<LinearSagaInput>, next: SagaDecision)
    requires Undoing(s, inputs, decision, n, stack, c, m)
    ensures GivenUp(s, more, next, n, stack, c, m) && more == inputs + [Abandon(id, m)]
  {
    RunsStayConsistent(s, inputs, decision);
    GiveUpDecision(s, decision, id, m);
    next := Extended(s, inputs, decision, Abandon(id, m));
    more := inputs + [Abandon(id, m)];
  }

  // The retry by hand resumes the forward step with the compensation's count.
  lemma Resumed(s: Instance, inputs: seq<LinearSagaInput>, decision: SagaDecision, id: InputId, n: nat, stack: seq<nat>, c: nat, m: nat)
    returns (more: seq<LinearSagaInput>, next: SagaDecision)
    requires GivenUp(s, inputs, decision, n, stack, c, m) && m + 1 < ID_LIMIT
    ensures n < |s.definition.steps| && |more| == m + 3 && Live(s, more) == Ok(Some(next))
    ensures next.projection.status == Running && next.projection.nextStepIndex == n
    ensures next.nextAction.Some? && next.nextAction.value.attempt == c
  {
    FreshNthId(decision.projection.issuedActionIds, m + 1);
    ManualRetryKeepsTheCount(s, inputs, decision, id, NthId(m + 1));
    var resume := ManualResolution(id, RetryAction, Some(NthId(m + 1)));
    next := Extended(s, inputs, decision, resume);
    more := inputs + [resume];
  }

  // A run plans a forward action at or beyond its step's own limit.
  ghost predicate BeyondLimit(s: Instance, decision: SagaDecision) {
    && decision.projection.status == Running && decision.projection.nextStepIndex < |s.definition.steps|
    && decision.nextAction.Some?
    && decision.nextAction.value.attempt >= s.definition.steps[decision.projection.nextStepIndex].retryPolicy.maxAttempts
  }

  ghost predicate SomeRunExceeds(s: Instance) {
    exists inputs: seq<LinearSagaInput>, decision: SagaDecision :: Recorded(s, inputs, decision) && BeyondLimit(s, decision)
  }

  // A step whose limit an earlier compensation, retried at once, can outcount.
  predicate Outcounted(d: LinearSagaDefinition, n: nat) {
    n < |d.steps| && exists i: nat :: i < n && CountedBy(d, i, d.steps[n].retryPolicy.maxAttempts)
  }

  // The stack left when the steps after `i` are undone.
  lemma StackDownTo(d: LinearSagaDefinition, i: nat, n: nat) returns (stack: seq<nat>, target: seq<nat>)
    requires i < n <= |d.steps| && d.steps[i].compensation.Some?
    ensures stack == CompensableBelow(d, n) && target != [] && Top(target) == i && target <= stack && |stack| <= n
  {
    stack, target := CompensableBelow(d, n), CompensableBelow(d, i + 1);
    BelowIsPrefix(d, i + 1, n);
  }

  // Step `n` fails and the steps before it are to be undone, `i` among them.
  lemma UndoFrom(s: Instance, id: InputId, i: nat, n: nat)
    returns (before: seq<LinearSagaInput>, decision: SagaDecision, stack: seq<nat>, target: seq<nat>, m: nat)
    requires ValidDefinition(s.definition) && i < n < |s.definition.steps| && s.definition.steps[i].compensation.Some?
    ensures Undoing(s, before, decision, n, stack, 0, m) && m == n + 1
    ensures target <= stack && target != [] && Top(target) == i && |stack| <= n
  {
    stack, target := StackDownTo(s.definition, i, n);
    m := n + 1;
    before, decision := ReachUndo(s, id, n, stack);
  }

  // Step `n` fails, the steps after `i` are undone, and the compensation of `i`
  // fails until its count is `c`.
  lemma ReachCount(s: Instance, id: InputId, i: nat, n: nat, c: nat)
    returns (inputs: seq<LinearSagaInput>, decision: SagaDecision, target: seq<nat>, last: nat)
    requires ValidDefinition(s.definition) && i < n < |s.definition.steps| && c <= MAX_ACTION_ATTEMPTS_PER_STEP
    requires CountedBy(s.definition, i, c)
    ensures Undoing(s, inputs, decision, n, target, c, last) && last + 2 < ID_LIMIT
  {
    var before, undoing, stack, m;
    before, undoing, stack, target, m := UndoFrom(s, id, i, n);
    var below, next, l := UndoDownTo(s, before, undoing, id, n, stack, target, m);
    inputs, decision, last := CountUndosTo(s, below, next, id, n, target, c, l);
  }

  lemma ReachBeyondLimit(s: Instance, i: nat, n: nat) returns (inputs: seq<LinearSagaInput>, decision: SagaDecision)
    requires ValidDefinition(s.definition) && i < n < |s.definition.steps|
    requires CountedBy(s.definition, i, s.definition.steps[n].retryPolicy.maxAttempts)
    ensures Recorded(s, inputs, decision) && BeyondLimit(s, decision)
  {
    var id, c := NthInput(0), s.definition.steps[n].retryPolicy.maxAttempts;
    assert WithinAttemptLimit(s.definition.steps[n]);
    var counted, undoing, stack, m := ReachCount(s, id, i, n, c);
    var before, escalated := UndoGivenUp(s, counted, undoing, id, n, stack, c, m);
    inputs, decision := Resumed(s, before, escalated, id, n, stack, c, m);
    NumberedIsRecorded(s, inputs, decision);
    inputs := Numbered(inputs);
  }

  // A valid definition lets some run attempt a step at or beyond its own limit
  // exactly when a compensation of an earlier step retries at once and more often
  // than that step's limit.
  lemma ManualRetryExceedsIff(s: Instance)
    requires ValidDefinition(s.definition)
    ensures SomeRunExceeds(s) <==> exists n: nat :: Outcounted(s.definition, n)
  {
    if SomeRunExceeds(s) {
      var inputs: seq<LinearSagaInput>, decision: SagaDecision :| Recorded(s, inputs, decision) && BeyondLimit(s, decision);
      RunsStayConsistent(s, inputs, decision);
      CountsAreExplained(s, inputs, decision);
      var n := decision.projection.nextStepIndex;
      var i: nat :| i < n && CountedBy(s.definition, i, decision.projection.currentAttempt);
      assert CountedBy(s.definition, i, s.definition.steps[n].retryPolicy.maxAttempts);
      assert Outcounted(s.definition, n);
    }
    if n: nat :| Outcounted(s.definition, n) {
      var i: nat :| i < n && CountedBy(s.definition, i, s.definition.steps[n].retryPolicy.maxAttempts);
      var inputs, decision := ReachBeyondLimit(s, i, n);
    }
  }
}
